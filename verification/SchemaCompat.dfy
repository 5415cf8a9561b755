/** The recursive schema comparison of two OpenAPI documents, and when it ends. */
module SchemaCompat {
  import opened Json
  import opened Reachability
  import SchemaRefs

  /** `rest` is what the serialised schema holds beside the compared keywords. */
  datatype Schema = Schema(deprecated: bool, kind: Kind, rest: Value)

  /** Scalars with their enum values (none: unrestricted); `Other` is a composition or an untyped schema. */
  datatype Kind =
    | StringType(values: set<Value>)
    | NumberType(values: set<Value>)
    | IntegerType(values: set<Value>)
    | BooleanType(values: set<Value>)
    | ArrayType(items: Option<SchemaRef>)
    | ObjectType(properties: map<string, SchemaRef>, required: set<string>)
    | Other

  datatype SchemaRef = Inline(schema: Schema) | Ref(reference: string)

  /** `components.schemas` of a document. */
  type Components = map<string, SchemaRef>

  /** The old and the new document's components. */
  datatype Specs = Specs(was: Components, now: Components)

  datatype Verdict = Accept | Reject | Unfinished

  /** The name a `#/components/schemas/...` reference spells, if it is one. */
  function RefTarget(reference: string): Option<string> {
    if SchemaRefs.SCHEMAS <= reference then Some(reference[|SchemaRefs.SCHEMAS|..]) else None
  }

  function ComponentSchema(c: Components, reference: string): Option<Schema> {
    match RefTarget(reference)
    case Some(name) => if name in c && c[name].Inline? then Some(c[name].schema) else None
    case None => None
  }

  function ResolveRef(c: Components, x: SchemaRef): Option<Schema> {
    match x case Inline(s) => Some(s) case Ref(r) => ComponentSchema(c, r)
  }

  /** A component is found by its whole spelling, and only if it is written in place. */
  lemma ComponentFound(c: Components, reference: string, s: Schema)
    ensures ComponentSchema(c, reference) == Some(s) <==>
              exists name :: reference == "#/components/schemas/" + name && name in c && c[name] == Inline(s)
  {
    var prefix := "#/components/schemas/";
    assert SchemaRefs.SCHEMAS == prefix;
    if prefix <= reference {
      assert reference == prefix + reference[|prefix|..];
    }
    if name :| reference == prefix + name && name in c && c[name] == Inline(s) {
      assert reference[|prefix|..] == name;
    }
  }

  function TypeName(kind: Kind): string {
    match kind
    case StringType(_) => "string"
    case NumberType(_) => "number"
    case IntegerType(_) => "integer"
    case BooleanType(_) => "boolean"
    case ArrayType(_) => "array"
    case ObjectType(_, _) => "object"
    case Other => "unknown"
  }

  predicate TypeChanged(was: Kind, now: Kind) {
    TypeName(was) != TypeName(now) && !was.Other? && !now.Other?
  }

  predicate IsScalar(kind: Kind) {
    kind.StringType? || kind.NumberType? || kind.IntegerType? || kind.BooleanType?
  }

  /** The enum values of a scalar schema; empty when it is unrestricted. */
  function EnumValues(kind: Kind): set<Value> {
    if IsScalar(kind) then kind.values else {}
  }

  predicate EnumNarrowed(was: Kind, now: Kind) {
    EnumValues(now) != {} && (EnumValues(was) == {} || !(EnumValues(was) <= EnumValues(now)))
  }

  predicate IsDeprecated(x: SchemaRef) {
    x.Inline? && x.schema.deprecated
  }

  /** A property removed without notice, or a new required field in a request. */
  predicate MembersBroken(was: Kind, now: Kind, isRequest: bool)
    requires was.ObjectType? && now.ObjectType?
  {
    || (exists p | p in was.properties :: p !in now.properties && !IsDeprecated(was.properties[p]))
    || (isRequest && !(now.required <= was.required))
  }

  /** What is settled before any subschema is looked at. */
  predicate BrokenHere(was: Kind, now: Kind, isRequest: bool) {
    || TypeChanged(was, now)
    || (isRequest && EnumNarrowed(was, now))
    || (was.ObjectType? && now.ObjectType? && MembersBroken(was, now, isRequest))
  }

  /** The comparison of two schemas within `fuel` levels of nesting. `Unfinished` means that some
      order of looking at the subschemas needs more. */
  function Check(specs: Specs, was: Schema, now: Schema, isRequest: bool, fuel: nat): Verdict
    decreases fuel, 0
  {
    if fuel == 0 then Unfinished
    else if BrokenHere(was.kind, now.kind, isRequest) then Reject
    else match (was.kind, now.kind)
      case (ObjectType(op, _), ObjectType(np, _)) =>
        if exists p | p in op && p in np :: CheckRef(specs, op[p], np[p], isRequest, fuel - 1).Unfinished? then Unfinished
        else if exists p | p in op && p in np :: CheckRef(specs, op[p], np[p], isRequest, fuel - 1).Reject? then Reject
        else Accept
      case (ArrayType(Some(oi)), ArrayType(Some(ni))) => CheckRef(specs, oi, ni, isRequest, fuel - 1)
      case _ => Accept
  }

  /** Two inline schemas recurse; two `$ref`s must be spelled alike; a mix resolves and recurses. */
  function CheckRef(specs: Specs, was: SchemaRef, now: SchemaRef, isRequest: bool, fuel: nat): Verdict
    decreases fuel, 1
  {
    match (was, now)
    case (Inline(o), Inline(n)) =>
      if TypeChanged(o.kind, n.kind) then Reject else Check(specs, o, n, isRequest, fuel)
    case (Ref(o), Ref(n)) => if o == n then Accept else Reject
    case _ =>
      match (ResolveRef(specs.was, was), ResolveRef(specs.now, now))
      case (Some(o), Some(n)) => Check(specs, o, n, isRequest, fuel)
      case _ => Reject
  }

  /** More fuel never changes a verdict once there is one. */
  lemma {:induction false} FuelIrrelevant(specs: Specs, was: Schema, now: Schema, isRequest: bool, fuel: nat, more: nat)
    requires fuel <= more && Check(specs, was, now, isRequest, fuel) != Unfinished
    ensures Check(specs, was, now, isRequest, more) == Check(specs, was, now, isRequest, fuel)
    decreases fuel, 0
  {
    if !BrokenHere(was.kind, now.kind, isRequest) {
      match (was.kind, now.kind)
      case (ObjectType(op, _), ObjectType(np, _)) =>
        forall p | p in op && p in np
          ensures CheckRef(specs, op[p], np[p], isRequest, more - 1) == CheckRef(specs, op[p], np[p], isRequest, fuel - 1)
        {
          FuelIrrelevantRef(specs, op[p], np[p], isRequest, fuel - 1, more - 1);
        }
      case (ArrayType(Some(oi)), ArrayType(Some(ni))) =>
        FuelIrrelevantRef(specs, oi, ni, isRequest, fuel - 1, more - 1);
      case _ =>
    }
  }

  lemma {:induction false} FuelIrrelevantRef(specs: Specs, was: SchemaRef, now: SchemaRef, isRequest: bool, fuel: nat, more: nat)
    requires fuel <= more && CheckRef(specs, was, now, isRequest, fuel) != Unfinished
    ensures CheckRef(specs, was, now, isRequest, more) == CheckRef(specs, was, now, isRequest, fuel)
    decreases fuel, 1
  {
    match (ResolveRef(specs.was, was), ResolveRef(specs.now, now))
    case (Some(o), Some(n)) =>
      if Check(specs, o, n, isRequest, fuel) != Unfinished {
        FuelIrrelevant(specs, o, n, isRequest, fuel, more);
      }
    case _ =>
  }

  // --- What the recursion decides ------------------------------------------------------------

  /** Two schemas the comparison puts side by side. */
  datatype Facing = Facing(was: Schema, now: Schema)

  /** What a pair of subschemas leads to; two references are not followed. */
  function FacingBelow(specs: Specs, x: SchemaRef, y: SchemaRef): set<Facing> {
    if x.Ref? && y.Ref? then {}
    else match (ResolveRef(specs.was, x), ResolveRef(specs.now, y))
      case (Some(o), Some(n)) => {Facing(o, n)}
      case _ => {}
  }

  function NextFacing(specs: Specs): Facing -> set<Facing> {
    (p: Facing) =>
      match (p.was.kind, p.now.kind)
      case (ObjectType(op, _), ObjectType(np, _)) => set k, q | k in op && k in np && q in FacingBelow(specs, op[k], np[k]) :: q
      case (ArrayType(Some(x)), ArrayType(Some(y))) => FacingBelow(specs, x, y)
      case _ => {}
  }

  // What must hold of two schemas side by side, in the terms of the schemas alone.

  predicate SameType(was: Kind, now: Kind) {
    || (was.StringType? && now.StringType?)
    || (was.NumberType? && now.NumberType?)
    || (was.IntegerType? && now.IntegerType?)
    || (was.BooleanType? && now.BooleanType?)
    || (was.ArrayType? && now.ArrayType?)
    || (was.ObjectType? && now.ObjectType?)
    || (was.Other? && now.Other?)
  }

  /** An enum may only widen, and what was unrestricted stays so. */
  predicate RestrictionKept(was: set<Value>, now: set<Value>) {
    now == {} || (was != {} && forall v | v in was :: v in now)
  }

  predicate EnumKept(was: Kind, now: Kind) {
    match (was, now)
    case (StringType(o), StringType(n)) => RestrictionKept(o, n)
    case (NumberType(o), NumberType(n)) => RestrictionKept(o, n)
    case (IntegerType(o), IntegerType(n)) => RestrictionKept(o, n)
    case (BooleanType(o), BooleanType(n)) => RestrictionKept(o, n)
    case (Other, StringType(n)) => n == {}
    case (Other, NumberType(n)) => n == {}
    case (Other, IntegerType(n)) => n == {}
    case (Other, BooleanType(n)) => n == {}
    case _ => true
  }

  /** Every property stays, unless it is written in place and marked deprecated. */
  predicate PropertiesKept(was: map<string, SchemaRef>, now: map<string, SchemaRef>) {
    forall k | k in was :: k in now || (was[k].Inline? && was[k].schema.deprecated)
  }

  /** The types agree unless one side is a composition or untyped, properties stay, and a request gains
      neither a narrower enum nor a required field. */
  predicate KeptHere(was: Kind, now: Kind, isRequest: bool) {
    && (SameType(was, now) || was.Other? || now.Other?)
    && (was.ObjectType? && now.ObjectType? ==> PropertiesKept(was.properties, now.properties))
    && (isRequest ==> EnumKept(was, now))
    && (isRequest && was.ObjectType? && now.ObjectType? ==> forall r | r in now.required :: r in was.required)
  }

  lemma KeptHereIff(was: Kind, now: Kind, isRequest: bool)
    ensures KeptHere(was, now, isRequest) <==> !BrokenHere(was, now, isRequest)
  {
    TypesTellApart(was, now);
  }

  lemma TypesTellApart(was: Kind, now: Kind)
    ensures TypeName(was) == TypeName(now) <==> SameType(was, now)
  {
    assert TypeName(was)[0] == TypeName(now)[0] ==> SameType(was, now);
  }

  /** Subschemas that cannot be put side by side: references spelled differently, or one that leads nowhere. */
  predicate Mismatched(specs: Specs, x: SchemaRef, y: SchemaRef) {
    match (x, y)
    case (Ref(o), Ref(n)) => o != n
    case (Inline(_), Inline(_)) => false
    case _ => ResolveRef(specs.was, x).None? || ResolveRef(specs.now, y).None?
  }

  /** A breaking difference at this place. */
  predicate Clash(specs: Specs, p: Facing, isRequest: bool) {
    || !KeptHere(p.was.kind, p.now.kind, isRequest)
    || match (p.was.kind, p.now.kind)
       case (ObjectType(op, _), ObjectType(np, _)) => exists k | k in op && k in np :: Mismatched(specs, op[k], np[k])
       case (ArrayType(Some(x)), ArrayType(Some(y))) => Mismatched(specs, x, y)
       case _ => false
  }

  ghost predicate Compared(specs: Specs, was: Schema, now: Schema, p: Facing) {
    Reach({Facing(was, now)}, NextFacing(specs), p)
  }

  ghost predicate NoClash(specs: Specs, was: Schema, now: Schema, isRequest: bool) {
    forall p :: Compared(specs, was, now, p) ==> !Clash(specs, p, isRequest)
  }

  ghost predicate Accepted(specs: Specs, p: Facing, isRequest: bool) {
    exists fuel: nat :: Check(specs, p.was, p.now, isRequest, fuel) == Accept
  }

  lemma AcceptedStep(specs: Specs, p: Facing, q: Facing, isRequest: bool)
    requires Accepted(specs, p, isRequest) && q in NextFacing(specs)(p)
    ensures Accepted(specs, q, isRequest)
  {
    var fuel: nat :| Check(specs, p.was, p.now, isRequest, fuel) == Accept;
    match (p.was.kind, p.now.kind)
    case (ObjectType(op, _), ObjectType(np, _)) =>
      var k :| k in op && k in np && q in FacingBelow(specs, op[k], np[k]);
      assert CheckRef(specs, op[k], np[k], isRequest, fuel - 1) == Accept;
      assert Check(specs, q.was, q.now, isRequest, fuel - 1) == Accept;
    case (ArrayType(Some(x)), ArrayType(Some(y))) =>
      assert CheckRef(specs, x, y, isRequest, fuel - 1) == Accept;
      assert Check(specs, q.was, q.now, isRequest, fuel - 1) == Accept;
    case _ =>
  }

  lemma FacingProperty(specs: Specs, p: Facing, isRequest: bool, k: string)
    requires p.was.kind.ObjectType? && p.now.kind.ObjectType? && k in p.was.kind.properties && k in p.now.kind.properties
    ensures FacingBelow(specs, p.was.kind.properties[k], p.now.kind.properties[k]) <= NextFacing(specs)(p)
    ensures !Clash(specs, p, isRequest) ==> !Mismatched(specs, p.was.kind.properties[k], p.now.kind.properties[k])
  {}

  lemma {:induction false} NoClashNoReject(specs: Specs, was: Schema, now: Schema, p: Facing, isRequest: bool, fuel: nat)
    requires NoClash(specs, was, now, isRequest) && Compared(specs, was, now, p)
    ensures Check(specs, p.was, p.now, isRequest, fuel) != Reject
    decreases fuel, 1
  {
    assert !Clash(specs, p, isRequest);
    KeptHereIff(p.was.kind, p.now.kind, isRequest);
    if fuel > 0 {
      match (p.was.kind, p.now.kind)
      case (ObjectType(op, _), ObjectType(np, _)) => NoClashProperties(specs, was, now, p, isRequest, fuel);
      case (ArrayType(Some(x)), ArrayType(Some(y))) => NoClashBelow(specs, was, now, p, x, y, isRequest, fuel - 1);
      case _ =>
    }
  }

  lemma {:induction false} NoClashProperty(specs: Specs, was: Schema, now: Schema, p: Facing, k: string, isRequest: bool, fuel: nat)
    requires NoClash(specs, was, now, isRequest) && Compared(specs, was, now, p)
    requires p.was.kind.ObjectType? && p.now.kind.ObjectType? && k in p.was.kind.properties && k in p.now.kind.properties
    ensures CheckRef(specs, p.was.kind.properties[k], p.now.kind.properties[k], isRequest, fuel) != Reject
    decreases fuel, 3
  {
    FacingProperty(specs, p, isRequest, k);
    assert !Clash(specs, p, isRequest);
    NoClashBelow(specs, was, now, p, p.was.kind.properties[k], p.now.kind.properties[k], isRequest, fuel);
  }

  lemma {:induction false} NoClashProperties(specs: Specs, was: Schema, now: Schema, p: Facing, isRequest: bool, fuel: nat)
    requires NoClash(specs, was, now, isRequest) && Compared(specs, was, now, p) && fuel > 0
    requires p.was.kind.ObjectType? && p.now.kind.ObjectType?
    ensures Check(specs, p.was, p.now, isRequest, fuel) != Reject
    decreases fuel, 0
  {
    forall k | k in p.was.kind.properties && k in p.now.kind.properties
      ensures CheckRef(specs, p.was.kind.properties[k], p.now.kind.properties[k], isRequest, fuel - 1) != Reject
    {
      NoClashProperty(specs, was, now, p, k, isRequest, fuel - 1);
    }
    assert !BrokenHere(p.was.kind, p.now.kind, isRequest) by {
      assert !Clash(specs, p, isRequest);
      KeptHereIff(p.was.kind, p.now.kind, isRequest);
    }
    NoPropertyRejects(specs, p, isRequest, fuel);
  }

  lemma NoPropertyRejects(specs: Specs, p: Facing, isRequest: bool, fuel: nat)
    requires fuel > 0 && p.was.kind.ObjectType? && p.now.kind.ObjectType? && !BrokenHere(p.was.kind, p.now.kind, isRequest)
    requires forall k | k in p.was.kind.properties && k in p.now.kind.properties ::
               CheckRef(specs, p.was.kind.properties[k], p.now.kind.properties[k], isRequest, fuel - 1) != Reject
    ensures Check(specs, p.was, p.now, isRequest, fuel) != Reject
  {}

  lemma {:induction false} NoClashBelow(
    specs: Specs, was: Schema, now: Schema, p: Facing, x: SchemaRef, y: SchemaRef, isRequest: bool, fuel: nat)
    requires NoClash(specs, was, now, isRequest) && Compared(specs, was, now, p) && FacingBelow(specs, x, y) <= NextFacing(specs)(p) && !Mismatched(specs, x, y)
    ensures CheckRef(specs, x, y, isRequest, fuel) != Reject
    decreases fuel, 2
  {
    if !(x.Ref? && y.Ref?) {
      var q := Facing(ResolveRef(specs.was, x).value, ResolveRef(specs.now, y).value);
      assert q in FacingBelow(specs, x, y);
      ReachStep({Facing(was, now)}, NextFacing(specs), p, q);
      assert !Clash(specs, q, isRequest);
      KeptHereIff(q.was.kind, q.now.kind, isRequest);
      NoClashNoReject(specs, was, now, q, isRequest, fuel);
    }
  }

  /** A finished comparison accepts exactly when nothing it puts side by side, at any depth and through
      any resolved reference, differs in a breaking way. */
  lemma AcceptsIffNoClash(specs: Specs, was: Schema, now: Schema, isRequest: bool, fuel: nat)
    requires Check(specs, was, now, isRequest, fuel) != Unfinished
    ensures Check(specs, was, now, isRequest, fuel) == Accept <==> NoClash(specs, was, now, isRequest)
  {
    var start := Facing(was, now);
    ReachStart({start}, NextFacing(specs), start);
    if Check(specs, was, now, isRequest, fuel) == Accept {
      forall u, w | Accepted(specs, u, isRequest) && w in NextFacing(specs)(u) ensures Accepted(specs, w, isRequest) {
        AcceptedStep(specs, u, w, isRequest);
      }
      forall p | Compared(specs, was, now, p) ensures !Clash(specs, p, isRequest) {
        assert Check(specs, start.was, start.now, isRequest, fuel) == Accept;
        ReachInduction({start}, NextFacing(specs), (x: Facing) => Accepted(specs, x, isRequest), p);
        AcceptedHasNoClash(specs, p, isRequest);
      }
    } else if NoClash(specs, was, now, isRequest) {
      NoClashNoReject(specs, was, now, start, isRequest, fuel);
    }
  }

  lemma AcceptedHasNoClash(specs: Specs, p: Facing, isRequest: bool)
    requires Accepted(specs, p, isRequest)
    ensures !Clash(specs, p, isRequest)
  {
    var fuel: nat :| Check(specs, p.was, p.now, isRequest, fuel) == Accept;
    KeptHereIff(p.was.kind, p.now.kind, isRequest);
    match (p.was.kind, p.now.kind)
    case (ObjectType(op, _), ObjectType(np, _)) =>
      forall k | k in op && k in np ensures !Mismatched(specs, op[k], np[k]) {
        assert CheckRef(specs, op[k], np[k], isRequest, fuel - 1) == Accept;
      }
    case (ArrayType(Some(x)), ArrayType(Some(y))) =>
      assert CheckRef(specs, x, y, isRequest, fuel - 1) == Accept;
    case _ =>
  }

  // --- The component-reference graph -----------------------------------------

  /** The direct subschemas the comparison descends into. */
  function Children(s: Schema): set<SchemaRef> {
    match s.kind
    case ArrayType(Some(x)) => {x}
    case ObjectType(props, _) => set p | p in props :: props[p]
    case _ => {}
  }

  /** The references a schema holds where the comparison can meet them. */
  function ChildRefs(s: Schema): set<string> {
    match s.kind
    case ArrayType(Some(x)) => RefsOf(x)
    case ObjectType(props, _) => set p, r | p in props && r in RefsOf(props[p]) :: r
    case _ => {}
  }

  function RefsOf(x: SchemaRef): set<string> {
    match x case Inline(s) => ChildRefs(s) case Ref(r) => {r}
  }

  /** The components that a set of references leads to. */
  function TargetsOf(c: Components, refs: set<string>): set<string> {
    set r | r in refs && ComponentSchema(c, r).Some? :: RefTarget(r).value
  }

  function Targets(c: Components, s: Schema): set<string> {
    TargetsOf(c, ChildRefs(s))
  }

  /** The components a component refers to. */
  function Next(c: Components): string -> set<string> {
    (name: string) => if name in c && c[name].Inline? then Targets(c, c[name].schema) else {}
  }

  /** No component reaches itself. */
  ghost predicate Acyclic(c: Components) {
    forall name :: name in c ==> !Reach(Next(c)(name), Next(c), name)
  }

  /** Components that refer to no component are one such case. */
  lemma NoReferencesIsAcyclic(c: Components)
    requires forall name :: name in c && c[name].Inline? ==> Targets(c, c[name].schema) == {}
    ensures Acyclic(c)
  {
    forall name | name in c ensures !Reach(Next(c)(name), Next(c), name) {
      if Reach(Next(c)(name), Next(c), name) {
        ReachStaysWithin(Next(c)(name), Next(c), {}, name);
      }
    }
  }

  /** How many components a component reaches: fewer one reference further down. */
  ghost function Rank(c: Components, name: string): nat {
    ReachCount(c.Keys, Next(c), name)
  }

  // --- When the comparison ends ------------------------------------------------

  ghost predicate Below(c: Components, refs: set<string>, bound: nat) {
    forall name :: name in TargetsOf(c, refs) ==> Rank(c, name) < bound
  }

  ghost function Max(s: set<nat>): (m: nat)
    ensures forall n :: n in s ==> n <= m
  {
    if s == {} then 0
    else
      var x :| x in s;
      var rest := Max(s - {x});
      assert forall n :: n in s ==> n == x || n in s - {x};
      if x < rest then rest else x
  }

  lemma BelowTarget(c: Components, r: string)
    requires Acyclic(c) && ComponentSchema(c, r).Some?
    ensures Below(c, ChildRefs(ComponentSchema(c, r).value), Rank(c, RefTarget(r).value))
  {
    var name := RefTarget(r).value;
    forall n | n in Targets(c, ComponentSchema(c, r).value) ensures Rank(c, n) < Rank(c, name) {
      ReachCountDrops(c.Keys, Next(c), name, n);
    }
  }

  /** How deep a schema is when every reference in it is unfolded. */
  ghost function Depth(c: Components, bound: nat, s: Schema): (d: nat)
    requires Acyclic(c) && Below(c, ChildRefs(s), bound)
    ensures s.kind.ObjectType? ==> forall p :: p in s.kind.properties ==>
              Below(c, RefsOf(s.kind.properties[p]), bound) && DepthRef(c, bound, s.kind.properties[p]) < d
    decreases bound, s, 0
  {
    match s.kind
    case ArrayType(Some(x)) => 1 + DepthRef(c, bound, x)
    case ObjectType(props, _) =>
      assert forall p :: p in props ==> RefsOf(props[p]) <= ChildRefs(s);
      var depths := set p | p in props :: DepthRef(c, bound, props[p]);
      assert forall p :: p in props ==> DepthRef(c, bound, props[p]) in depths;
      1 + Max(depths)
    case _ => 1
  }

  ghost function DepthRef(c: Components, bound: nat, x: SchemaRef): nat
    requires Acyclic(c) && Below(c, RefsOf(x), bound)
    decreases bound, x, 0
  {
    match x
    case Inline(s) => Depth(c, bound, s)
    case Ref(r) =>
      match ComponentSchema(c, r)
      case None => 0
      case Some(s) =>
        BelowTarget(c, r);
        assert RefTarget(r).value in TargetsOf(c, {r});
        Depth(c, Rank(c, RefTarget(r).value), s)
  }

  /** The side of the comparison whose references are acyclic. */
  datatype Side = Was | Now

  function ComponentsOn(specs: Specs, side: Side): Components {
    if side.Was? then specs.was else specs.now
  }

  function On<T>(side: Side, was: T, now: T): T {
    if side.Was? then was else now
  }

  /** One acyclic side is enough: its unfolded depth bounds the recursion. */
  lemma {:induction false} EndsWithinDepth(specs: Specs, side: Side, bound: nat, was: Schema, now: Schema, isRequest: bool, fuel: nat)
    requires Acyclic(ComponentsOn(specs, side)) && Below(ComponentsOn(specs, side), ChildRefs(On(side, was, now)), bound)
    requires Depth(ComponentsOn(specs, side), bound, On(side, was, now)) <= fuel
    ensures Check(specs, was, now, isRequest, fuel) != Unfinished
    decreases fuel, 2
  {
    match (was.kind, now.kind)
    case (ObjectType(op, _), ObjectType(np, _)) =>
      forall p | p in op && p in np ensures CheckRef(specs, op[p], np[p], isRequest, fuel - 1) != Unfinished {
        PropertyEndsWithinDepth(specs, side, bound, was, now, p, isRequest, fuel);
      }
      EndsWithProperties(specs, Facing(was, now), isRequest, fuel);
    case (ArrayType(Some(oi)), ArrayType(Some(ni))) =>
      EndsWithinDepthRef(specs, side, bound, oi, ni, isRequest, fuel - 1);
    case _ =>
  }

  lemma {:induction false} PropertyEndsWithinDepth(
    specs: Specs, side: Side, bound: nat, was: Schema, now: Schema, p: string, isRequest: bool, fuel: nat)
    requires Acyclic(ComponentsOn(specs, side)) && Below(ComponentsOn(specs, side), ChildRefs(On(side, was, now)), bound)
    requires Depth(ComponentsOn(specs, side), bound, On(side, was, now)) <= fuel && fuel > 0
    requires was.kind.ObjectType? && now.kind.ObjectType? && p in was.kind.properties && p in now.kind.properties
    ensures CheckRef(specs, was.kind.properties[p], now.kind.properties[p], isRequest, fuel - 1) != Unfinished
    decreases fuel, 0
  {
    PropertyDepth(ComponentsOn(specs, side), bound, On(side, was, now), p);
    EndsWithinDepthRef(specs, side, bound, was.kind.properties[p], now.kind.properties[p], isRequest, fuel - 1);
  }

  lemma PropertyDepth(c: Components, bound: nat, s: Schema, p: string)
    requires Acyclic(c) && Below(c, ChildRefs(s), bound) && s.kind.ObjectType? && p in s.kind.properties
    ensures Below(c, RefsOf(s.kind.properties[p]), bound) && DepthRef(c, bound, s.kind.properties[p]) < Depth(c, bound, s)
  {}

  lemma EndsWithProperties(specs: Specs, p: Facing, isRequest: bool, fuel: nat)
    requires fuel > 0 && p.was.kind.ObjectType? && p.now.kind.ObjectType?
    requires forall k | k in p.was.kind.properties && k in p.now.kind.properties ::
               CheckRef(specs, p.was.kind.properties[k], p.now.kind.properties[k], isRequest, fuel - 1) != Unfinished
    ensures Check(specs, p.was, p.now, isRequest, fuel) != Unfinished
  {}

  lemma {:induction false} EndsWithinDepthRef(specs: Specs, side: Side, bound: nat, was: SchemaRef, now: SchemaRef, isRequest: bool, fuel: nat)
    requires Acyclic(ComponentsOn(specs, side)) && Below(ComponentsOn(specs, side), RefsOf(On(side, was, now)), bound)
    requires DepthRef(ComponentsOn(specs, side), bound, On(side, was, now)) <= fuel
    ensures CheckRef(specs, was, now, isRequest, fuel) != Unfinished
    decreases fuel, 3
  {
    var c, x := ComponentsOn(specs, side), On(side, was, now);
    match (ResolveRef(specs.was, was), ResolveRef(specs.now, now))
    case (Some(o), Some(n)) =>
      if x.Inline? {
        EndsWithinDepth(specs, side, bound, o, n, isRequest, fuel);
      } else if was.Inline? || now.Inline? {
        BelowTarget(c, x.reference);
        EndsWithinDepth(specs, side, Rank(c, RefTarget(x.reference).value), o, n, isRequest, fuel);
      }
    case _ =>
  }

  lemma SomeBound(c: Components, s: Schema) returns (bound: nat)
    ensures Below(c, ChildRefs(s), bound)
  {
    var ranks := set name | name in TargetsOf(c, ChildRefs(s)) :: Rank(c, name);
    bound := Max(ranks) + 1;
    forall name | name in TargetsOf(c, ChildRefs(s)) ensures Rank(c, name) < bound {
      assert Rank(c, name) in ranks;
    }
  }

  /** If the references of either document form no cycle, the comparison ends, with a verdict that
      does not depend on the fuel. */
  lemma ComparisonEnds(specs: Specs, was: Schema, now: Schema, isRequest: bool) returns (enough: nat)
    requires Acyclic(specs.was) || Acyclic(specs.now)
    ensures forall fuel :: fuel >= enough ==>
              Check(specs, was, now, isRequest, fuel) == Check(specs, was, now, isRequest, enough) != Unfinished
  {
    var side := if Acyclic(specs.was) then Was else Now;
    var c := ComponentsOn(specs, side);
    var bound := SomeBound(c, On(side, was, now));
    enough := Depth(c, bound, On(side, was, now));
    EndsWithinDepth(specs, side, bound, was, now, isRequest, enough);
    forall fuel | fuel >= enough
      ensures Check(specs, was, now, isRequest, fuel) == Check(specs, was, now, isRequest, enough)
    {
      FuelIrrelevant(specs, was, now, isRequest, enough, fuel);
    }
  }

  /** How deep a schema is when references are not followed. */
  ghost function Height(s: Schema): (h: nat)
    ensures s.kind.ObjectType? ==> forall p :: p in s.kind.properties ==> HeightRef(s.kind.properties[p]) < h
  {
    match s.kind
    case ArrayType(Some(x)) => 1 + HeightRef(x)
    case ObjectType(props, _) =>
      var heights := set p | p in props :: HeightRef(props[p]);
      assert forall p :: p in props ==> HeightRef(props[p]) in heights;
      1 + Max(heights)
    case _ => 1
  }

  ghost function HeightRef(x: SchemaRef): nat {
    match x case Inline(s) => Height(s) case Ref(_) => 0
  }

  /** A schema is accepted against itself, recursive or not: references are met pairwise. */
  lemma {:induction false} AcceptsItself(c: Components, s: Schema, isRequest: bool, fuel: nat)
    requires Height(s) <= fuel
    ensures Check(Specs(c, c), s, s, isRequest, fuel) == Accept
    decreases fuel
  {
    match s.kind
    case ObjectType(props, _) =>
      forall p | p in props ensures CheckRef(Specs(c, c), props[p], props[p], isRequest, fuel - 1) == Accept {
        if props[p].Inline? {
          AcceptsItself(c, props[p].schema, isRequest, fuel - 1);
        }
      }
    case ArrayType(Some(x)) =>
      if x.Inline? {
        AcceptsItself(c, x.schema, isRequest, fuel - 1);
      }
    case _ =>
  }

  // --- When it does not ----------------------------------------------------------

  function RefTo(name: string): SchemaRef {
    Ref(SchemaRefs.SCHEMAS + name)
  }

  /** An object schema with one property. */
  function Holding(p: string, x: SchemaRef): Schema {
    Schema(false, ObjectType(map[p := x], {}), Null)
  }

  lemma RefToResolves(c: Components, name: string)
    requires name in c && c[name].Inline?
    ensures ResolveRef(c, RefTo(name)) == Some(c[name].schema)
  {
    assert RefTarget(RefTo(name).reference) == Some(name);
  }

  lemma OneProperty(specs: Specs, p: string, x: SchemaRef, y: SchemaRef, isRequest: bool, fuel: nat)
    requires !IsDeprecated(x)
    ensures Check(specs, Holding(p, x), Holding(p, y), isRequest, fuel + 1) == CheckRef(specs, x, y, isRequest, fuel)
  {
    var op, np := Holding(p, x).kind.properties, Holding(p, y).kind.properties;
    assert p in op && p in np && op[p] == x && np[p] == y;
  }

  /** The old A nests an inline object around its reference to A; the new A refers to B, which nests
      one around its reference to B. References come at alternating depths, so the two sides never
      show one at the same place and the comparison goes round for ever. */
  lemma {:induction false} AlternatingRecursionNeverEnds(a: string, b: string, p: string, isRequest: bool, fuel: nat)
    requires a != b
    ensures var specs := Specs(
              map[a := Inline(Holding(p, Inline(Holding(p, RefTo(a)))))],
              map[a := Inline(Holding(p, RefTo(b))), b := Inline(Holding(p, Inline(Holding(p, RefTo(b)))))]);
            && Check(specs, specs.was[a].schema, specs.now[a].schema, isRequest, fuel) == Unfinished
            && Check(specs, Holding(p, RefTo(a)), specs.now[b].schema, isRequest, fuel) == Unfinished
    decreases fuel
  {
    if fuel > 0 {
      AlternatingRecursionNeverEnds(a, b, p, isRequest, fuel - 1);
      var specs := Specs(
        map[a := Inline(Holding(p, Inline(Holding(p, RefTo(a)))))],
        map[a := Inline(Holding(p, RefTo(b))), b := Inline(Holding(p, Inline(Holding(p, RefTo(b)))))]);
      RefToResolves(specs.was, a);
      RefToResolves(specs.now, b);
      OneProperty(specs, p, Inline(Holding(p, RefTo(a))), RefTo(b), isRequest, fuel - 1);
      OneProperty(specs, p, RefTo(a), Inline(Holding(p, RefTo(b))), isRequest, fuel - 1);
    }
  }
}
