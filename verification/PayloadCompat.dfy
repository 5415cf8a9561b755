/** Message payloads: what a contract still provides, and how changes compose with expectations. */
module PayloadCompat {
  import opened Json

  /** `deprecated: true` or `x-deprecated: true`. */
  predicate IsDeprecated(node: Value) {
    Get(node, "deprecated") == Some(Bool(true)) || Get(node, "x-deprecated") == Some(Bool(true))
  }

  /** The declared properties; none when there are no `properties`. */
  function Properties(schema: Value): map<string, Value> {
    match GetObject(schema, "properties") case Some(p) => p case None => map[]
  }

  /** Where both state the string, they state the same. */
  predicate Agree(was: Value, now: Value, key: string) {
    GetStr(was, key).Some? && GetStr(now, key).Some? ==> GetStr(was, key) == GetStr(now, key)
  }

  /** `now` provides what `was` has: no mismatch of `$ref` or type, no property missing that was not
      deprecated, at any depth. */
  predicate Provides(was: Value, now: Value)
    decreases was
  {
    && Agree(was, now, "$ref")
    && Agree(was, now, "type")
    && (forall k | k in Properties(was) ::
          if k in Properties(now) then Provides(Properties(was)[k], Properties(now)[k]) else IsDeprecated(Properties(was)[k]))
    && (Get(was, "items").Some? && Get(now, "items").Some? ==> Provides(Get(was, "items").value, Get(now, "items").value))
  }

  predicate PayloadCompatible(was: Value, now: Value) {
    Provides(was, now)
  }

  /** The role-swapped sibling: the contract must provide what the consumer expects. */
  predicate ExpectationSatisfied(contract: Value, expectation: Value) {
    Provides(expectation, contract)
  }

  // --- The same, path by path -------------------------------------------------------------

  datatype PathStep = Property(name: string) | Items

  /** The property, if the schema has it. */
  function PropertyOf(schema: Value, k: string): Option<Value> {
    match Get(schema, "properties") case Some(Object(f)) => (if k in f then Some(f[k]) else None) case _ => None
  }

  function Descend(schema: Value, path: seq<PathStep>): Option<Value>
    decreases |path|
  {
    if path == [] then Some(schema)
    else match path[0]
      case Property(k) => (match PropertyOf(schema, k) case Some(p) => Descend(p, path[1..]) case None => None)
      case Items => match Get(schema, "items") case Some(items) => Descend(items, path[1..]) case None => None
  }

  /** Where both say a string under the key, they say the same. */
  predicate SayTheSame(was: Value, now: Value, key: string) {
    match (Get(was, key), Get(now, key)) case (Some(Str(a)), Some(Str(b))) => a == b case _ => true
  }

  predicate Marked(schema: Value) {
    Get(schema, "deprecated") == Some(Bool(true)) || Get(schema, "x-deprecated") == Some(Bool(true))
  }

  /** What one place of the two schemas has to fulfil: the same `$ref` and `type` where both state one, and
      no property gone that is not marked deprecated. */
  ghost predicate ProvidesHere(was: Value, now: Value) {
    && SayTheSame(was, now, "$ref")
    && SayTheSame(was, now, "type")
    && forall k :: PropertyOf(was, k).Some? && PropertyOf(now, k).None? ==> Marked(PropertyOf(was, k).value)
  }

  ghost predicate ProvidesAt(was: Value, now: Value, path: seq<PathStep>) {
    Descend(was, path).Some? && Descend(now, path).Some? ==> ProvidesHere(Descend(was, path).value, Descend(now, path).value)
  }

  lemma PropertyIs(v: Value, k: string)
    ensures PropertyOf(v, k) == if k in Properties(v) then Some(Properties(v)[k]) else None
  {}

  lemma HereIff(was: Value, now: Value)
    ensures ProvidesHere(was, now) <==>
              && Agree(was, now, "$ref") && Agree(was, now, "type")
              && forall k :: k in Properties(was) && k !in Properties(now) ==> IsDeprecated(Properties(was)[k])
  {
    forall k
      ensures PropertyOf(was, k) == if k in Properties(was) then Some(Properties(was)[k]) else None
      ensures PropertyOf(now, k) == if k in Properties(now) then Some(Properties(now)[k]) else None
    {
      PropertyIs(was, k);
      PropertyIs(now, k);
    }
  }

  lemma {:induction false} ProvidesDown(was: Value, now: Value, path: seq<PathStep>)
    requires Provides(was, now)
    ensures ProvidesAt(was, now, path)
    decreases |path|
  {
    HereIff(was, now);
    if path != [] && Descend(was, path).Some? && Descend(now, path).Some? {
      match path[0]
      case Property(k) =>
        PropertyIs(was, k);
        PropertyIs(now, k);
        ProvidesDown(Properties(was)[k], Properties(now)[k], path[1..]);
      case Items => ProvidesDown(Get(was, "items").value, Get(now, "items").value, path[1..]);
    }
  }

  lemma OneStepDown(was: Value, now: Value, first: PathStep, rest: seq<PathStep>)
    requires ProvidesAt(was, now, [first] + rest)
    ensures match first
            case Property(k) => k in Properties(was) && k in Properties(now) ==> ProvidesAt(Properties(was)[k], Properties(now)[k], rest)
            case Items => Get(was, "items").Some? && Get(now, "items").Some? ==>
              ProvidesAt(Get(was, "items").value, Get(now, "items").value, rest)
  {
    assert ([first] + rest)[1..] == rest;
    if first.Property? {
      PropertyIs(was, first.name);
      PropertyIs(now, first.name);
    }
  }

  lemma EverywhereBelowProperty(was: Value, now: Value, k: string)
    requires forall path :: ProvidesAt(was, now, path)
    requires k in Properties(was) && k in Properties(now)
    ensures forall rest :: ProvidesAt(Properties(was)[k], Properties(now)[k], rest)
  {
    forall rest ensures ProvidesAt(Properties(was)[k], Properties(now)[k], rest) {
      OneStepDown(was, now, Property(k), rest);
    }
  }

  lemma EverywhereBelowItems(was: Value, now: Value)
    requires forall path :: ProvidesAt(was, now, path)
    requires Get(was, "items").Some? && Get(now, "items").Some?
    ensures forall rest :: ProvidesAt(Get(was, "items").value, Get(now, "items").value, rest)
  {
    forall rest ensures ProvidesAt(Get(was, "items").value, Get(now, "items").value, rest) {
      OneStepDown(was, now, Items, rest);
    }
  }

  /** The recursion finds a mismatch exactly when some place that both schemas have shows one. */
  lemma {:induction false} ProvidesIffEverywhere(was: Value, now: Value)
    ensures Provides(was, now) <==> forall path :: ProvidesAt(was, now, path)
    decreases was
  {
    if Provides(was, now) {
      forall path ensures ProvidesAt(was, now, path) {
        ProvidesDown(was, now, path);
      }
    } else if forall path :: ProvidesAt(was, now, path) {
      assert ProvidesAt(was, now, []);
      HereIff(was, now);
      forall k | k in Properties(was) && k in Properties(now) ensures Provides(Properties(was)[k], Properties(now)[k]) {
        EverywhereBelowProperty(was, now, k);
        ProvidesIffEverywhere(Properties(was)[k], Properties(now)[k]);
      }
      if Get(was, "items").Some? && Get(now, "items").Some? {
        EverywhereBelowItems(was, now);
        ProvidesIffEverywhere(Get(was, "items").value, Get(now, "items").value);
      }
      assert false;
    }
  }

  // --- Composition ------------------------------------------------------------------------

  /** The middle speaks wherever both outer schemas do. */
  predicate Speaks(a: Value, middle: Value, b: Value, key: string) {
    GetStr(a, key).Some? && GetStr(b, key).Some? ==> GetStr(middle, key).Some?
  }

  /** The middle contract can stand between an expectation and a later contract: it states `type`,
      `$ref` and `items` where both outer schemas do, a property it lacks does not come back, and it
      does not let go a property the expectation still counts on. */
  predicate Mediates(expectation: Value, middle: Value, contract: Value)
    decreases expectation
  {
    var e, m, c := Properties(expectation), Properties(middle), Properties(contract);
    && Speaks(expectation, middle, contract, "$ref")
    && Speaks(expectation, middle, contract, "type")
    && (forall k | k in e ::
          if k !in m then k !in c
          else if k !in c then IsDeprecated(m[k]) ==> IsDeprecated(e[k])
          else Mediates(e[k], m[k], c[k]))
    && (Get(expectation, "items").Some? && Get(contract, "items").Some? ==>
          && Get(middle, "items").Some?
          && Mediates(Get(expectation, "items").value, Get(middle, "items").value, Get(contract, "items").value))
  }

  /** All that is left to ask of the outer schemas: where the middle is silent or lacks a property they
      have to agree by themselves, and what the change lets go the expectation must not count on. */
  predicate Bridged(expectation: Value, middle: Value, contract: Value)
    decreases expectation
  {
    var e, m, c := Properties(expectation), Properties(middle), Properties(contract);
    && (GetStr(middle, "$ref").None? ==> Agree(expectation, contract, "$ref"))
    && (GetStr(middle, "type").None? ==> Agree(expectation, contract, "type"))
    && (forall k | k in e ::
          if k in c then (if k in m then Bridged(e[k], m[k], c[k]) else Provides(e[k], c[k]))
          else k in m ==> IsDeprecated(e[k]))
    && (Get(expectation, "items").Some? && Get(contract, "items").Some? ==>
          if Get(middle, "items").Some?
          then Bridged(Get(expectation, "items").value, Get(middle, "items").value, Get(contract, "items").value)
          else Provides(Get(expectation, "items").value, Get(contract, "items").value))
  }

  /** A contract change accepted as compatible keeps an expectation that was satisfied exactly when the
      places the middle contract leaves open are bridged. */
  lemma {:induction false} ExpectationKeptIffBridged(expectation: Value, middle: Value, contract: Value)
    requires ExpectationSatisfied(middle, expectation) && PayloadCompatible(middle, contract)
    ensures ExpectationSatisfied(contract, expectation) <==> Bridged(expectation, middle, contract)
  {
    if ExpectationSatisfied(contract, expectation) {
      KeptIsBridged(expectation, middle, contract);
    }
    if Bridged(expectation, middle, contract) {
      BridgedKeeps(expectation, middle, contract);
    }
  }

  lemma {:induction false} KeptIsBridged(expectation: Value, middle: Value, contract: Value)
    requires Provides(expectation, middle) && Provides(middle, contract) && Provides(expectation, contract)
    ensures Bridged(expectation, middle, contract)
    decreases expectation
  {
    var e, m, c := Properties(expectation), Properties(middle), Properties(contract);
    forall k | k in e && k in m && k in c ensures Bridged(e[k], m[k], c[k]) {
      KeptIsBridged(e[k], m[k], c[k]);
    }
    if Get(expectation, "items").Some? && Get(middle, "items").Some? && Get(contract, "items").Some? {
      KeptIsBridged(Get(expectation, "items").value, Get(middle, "items").value, Get(contract, "items").value);
    }
  }

  lemma {:induction false} BridgedKeeps(expectation: Value, middle: Value, contract: Value)
    requires Provides(expectation, middle) && Provides(middle, contract) && Bridged(expectation, middle, contract)
    ensures Provides(expectation, contract)
    decreases expectation
  {
    var e, m, c := Properties(expectation), Properties(middle), Properties(contract);
    forall k | k in e ensures if k in c then Provides(e[k], c[k]) else IsDeprecated(e[k]) {
      assert if k in c then (if k in m then Bridged(e[k], m[k], c[k]) else Provides(e[k], c[k])) else k in m ==> IsDeprecated(e[k]);
      if k in m && k in c {
        BridgedKeeps(e[k], m[k], c[k]);
      }
    }
    if Get(expectation, "items").Some? && Get(middle, "items").Some? && Get(contract, "items").Some? {
      BridgedKeeps(Get(expectation, "items").value, Get(middle, "items").value, Get(contract, "items").value);
    }
  }

  /** A contract change accepted as compatible never breaks an expectation that was satisfied. */
  lemma {:induction false} CompatibleChangeKeepsExpectation(expectation: Value, middle: Value, contract: Value)
    requires ExpectationSatisfied(middle, expectation) && PayloadCompatible(middle, contract)
    requires Mediates(expectation, middle, contract)
    ensures ExpectationSatisfied(contract, expectation)
  {
    MediatedIsBridged(expectation, middle, contract);
    ExpectationKeptIffBridged(expectation, middle, contract);
  }

  lemma {:induction false} MediatedIsBridged(expectation: Value, middle: Value, contract: Value)
    requires ExpectationSatisfied(middle, expectation) && PayloadCompatible(middle, contract)
    requires Mediates(expectation, middle, contract)
    ensures Bridged(expectation, middle, contract)
    decreases expectation
  {
    var e, m, c := Properties(expectation), Properties(middle), Properties(contract);
    forall k | k in e && k in m && k in c ensures Bridged(e[k], m[k], c[k]) {
      MediatedIsBridged(e[k], m[k], c[k]);
    }
    if Get(expectation, "items").Some? && Get(contract, "items").Some? {
      MediatedIsBridged(Get(expectation, "items").value, Get(middle, "items").value, Get(contract, "items").value);
    }
  }

  /** Nothing in the schema is marked deprecated. */
  ghost predicate NothingDeprecated(schema: Value)
    decreases schema
  {
    && (forall k | k in Properties(schema) :: !IsDeprecated(Properties(schema)[k]) && NothingDeprecated(Properties(schema)[k]))
    && (Get(schema, "items").Some? ==> NothingDeprecated(Get(schema, "items").value))
  }

  /** `middle` states `type`, `$ref` and `items` wherever both outer schemas do. */
  ghost predicate SpeaksThroughout(a: Value, middle: Value, b: Value)
    decreases a
  {
    && Speaks(a, middle, b, "$ref") && Speaks(a, middle, b, "type")
    && (forall k | k in Properties(a) && k in Properties(middle) && k in Properties(b) ::
          SpeaksThroughout(Properties(a)[k], Properties(middle)[k], Properties(b)[k]))
    && (Get(a, "items").Some? && Get(b, "items").Some? ==>
          && Get(middle, "items").Some?
          && SpeaksThroughout(Get(a, "items").value, Get(middle, "items").value, Get(b, "items").value))
  }

  /** Three schemas on which the two checks succeed, without deprecation marks. */
  ghost predicate Chained(expectation: Value, middle: Value, contract: Value) {
    && Provides(expectation, middle) && Provides(middle, contract)
    && NothingDeprecated(expectation) && NothingDeprecated(middle)
    && SpeaksThroughout(expectation, middle, contract)
  }

  lemma UndeprecatedProperty(expectation: Value, middle: Value, contract: Value, k: string)
    requires Chained(expectation, middle, contract) && k in Properties(expectation)
    ensures k in Properties(middle) && k in Properties(contract)
    ensures Chained(Properties(expectation)[k], Properties(middle)[k], Properties(contract)[k])
  {
    assert k in Properties(middle) && k in Properties(contract);
  }

  lemma UndeprecatedItems(expectation: Value, middle: Value, contract: Value)
    requires Chained(expectation, middle, contract) && Get(expectation, "items").Some? && Get(contract, "items").Some?
    ensures Get(middle, "items").Some?
    ensures Chained(Get(expectation, "items").value, Get(middle, "items").value, Get(contract, "items").value)
  {}

  /** At this property the middle mediates, and neither check lets it go. */
  predicate MediatesAt(expectation: Value, middle: Value, contract: Value, k: string)
    requires k in Properties(expectation)
  {
    && k in Properties(middle) && k in Properties(contract)
    && Mediates(Properties(expectation)[k], Properties(middle)[k], Properties(contract)[k])
  }

  lemma MediatesHere(expectation: Value, middle: Value, contract: Value)
    requires SpeaksThroughout(expectation, middle, contract)
    requires forall k :: k in Properties(expectation) ==> MediatesAt(expectation, middle, contract, k)
    requires Get(expectation, "items").Some? && Get(middle, "items").Some? && Get(contract, "items").Some? ==>
               Mediates(Get(expectation, "items").value, Get(middle, "items").value, Get(contract, "items").value)
    ensures Mediates(expectation, middle, contract)
  {
    forall k | k in Properties(expectation)
      ensures k in Properties(middle) && k in Properties(contract) &&
              Mediates(Properties(expectation)[k], Properties(middle)[k], Properties(contract)[k])
    {
      assert MediatesAt(expectation, middle, contract, k);
    }
  }

  lemma {:induction false} ChainedMediates(expectation: Value, middle: Value, contract: Value)
    requires Chained(expectation, middle, contract)
    ensures Mediates(expectation, middle, contract)
    decreases expectation
  {
    forall k | k in Properties(expectation) ensures MediatesAt(expectation, middle, contract, k) {
      UndeprecatedProperty(expectation, middle, contract, k);
      ChainedMediates(Properties(expectation)[k], Properties(middle)[k], Properties(contract)[k]);
    }
    if Get(expectation, "items").Some? && Get(contract, "items").Some? {
      UndeprecatedItems(expectation, middle, contract);
      ChainedMediates(Get(expectation, "items").value, Get(middle, "items").value, Get(contract, "items").value);
    }
    MediatesHere(expectation, middle, contract);
  }

  /** Without deprecation marks, speaking throughout is all the middle has to do. */
  lemma {:induction false} UndeprecatedMediates(expectation: Value, middle: Value, contract: Value)
    requires ExpectationSatisfied(middle, expectation) && PayloadCompatible(middle, contract)
    requires NothingDeprecated(expectation) && NothingDeprecated(middle)
    requires SpeaksThroughout(expectation, middle, contract)
    ensures Mediates(expectation, middle, contract)
  {
    ChainedMediates(expectation, middle, contract);
  }

  function OfType(t: string): Value {
    Object(map["type" := Str(t)])
  }

  /** A middle contract that leaves the type open is a way round: each step is accepted, the two together
      change the type. */
  lemma SilentMiddleBreaks(a: string, b: string)
    requires a != b
    ensures var silent := Object(map[]);
            && ExpectationSatisfied(silent, OfType(a))
            && PayloadCompatible(silent, OfType(b))
            && !ExpectationSatisfied(OfType(b), OfType(a))
  {
    assert GetStr(OfType(a), "type") == Some(a) && GetStr(OfType(b), "type") == Some(b);
  }

  lemma {:induction false} ProvidesItself(v: Value)
    ensures Provides(v, v)
    decreases v
  {
    forall k | k in Properties(v) { ProvidesItself(Properties(v)[k]); }
    if Get(v, "items").Some? { ProvidesItself(Get(v, "items").value); }
  }
}
