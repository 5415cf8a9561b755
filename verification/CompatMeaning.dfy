/** The compatibility check of two documents in the documents' own terms: what is put side by side, what
    has to stay, what counts as new. */
module CompatMeaning {
  import opened Json
  import opened SchemaCompat
  import opened OpenApiCompat
  import opened ComparisonEnding
  import SchemaRefs
  import opened Text

  // --- Parameters ------------------------------------------------------------------------

  ghost predicate Resolves(d: Document, x: ParameterRef, p: Parameter) {
    || x == InlineParameter(p)
    || exists name :: x == ParameterAt("#/components/parameters/" + name) && name in d.parameters && d.parameters[name] == InlineParameter(p)
  }

  lemma ResolvesIff(d: Document, x: ParameterRef, p: Parameter)
    ensures ResolveParameter(d, x) == Some(p) <==> Resolves(d, x, p)
  {
    var prefix := "#/components/parameters/";
    if x.ParameterAt? {
      if prefix <= x.reference {
        assert x.reference == prefix + x.reference[|prefix|..];
      }
      if name :| x == ParameterAt(prefix + name) && name in d.parameters && d.parameters[name] == InlineParameter(p) {
        assert x.reference[|prefix|..] == name;
      }
    }
  }

  /** A parameter is known by its location and name; a header's name in any case. */
  predicate KnownAs(p: Parameter, k: ParameterKey) {
    k.0 == p.location && if p.location == Header then k.1 == Lower(p.name) else k.1 == p.name
  }

  /** Entry `i` is the last of the list known under the key. */
  ghost predicate LastKnownAs(d: Document, refs: seq<ParameterRef>, k: ParameterKey, p: Parameter, i: nat) {
    && i < |refs| && Resolves(d, refs[i], p) && KnownAs(p, k)
    && forall j, q :: i < j < |refs| && Resolves(d, refs[j], q) ==> !KnownAs(q, k)
  }

  lemma {:induction false} ParameterMapIs(d: Document, refs: seq<ParameterRef>, k: ParameterKey, p: Parameter)
    ensures (k in ParameterMap(d, refs) && ParameterMap(d, refs)[k] == p) <==> exists i: nat :: LastKnownAs(d, refs, k, p, i)
    decreases |refs|
  {
    if refs != [] {
      var last := |refs| - 1;
      ParameterMapIs(d, refs[..last], k, p);
      LastEntry(d, refs, k, p);
    }
  }

  lemma LastEntry(d: Document, refs: seq<ParameterRef>, k: ParameterKey, p: Parameter)
    requires refs != []
    ensures var last := |refs| - 1;
            (exists i: nat :: LastKnownAs(d, refs, k, p, i)) <==>
              match ResolveParameter(d, refs[last])
              case Some(q) => if KeyOf(q) == k then q == p else exists i: nat :: LastKnownAs(d, refs[..last], k, p, i)
              case None => exists i: nat :: LastKnownAs(d, refs[..last], k, p, i)
  {
    var last := |refs| - 1;
    forall i, q | 0 <= i < |refs| ensures ResolveParameter(d, refs[i]) == Some(q) <==> Resolves(d, refs[i], q) {
      ResolvesIff(d, refs[i], q);
    }
    assert forall q :: KnownAs(q, k) <==> KeyOf(q) == k;
    var r, front := ResolveParameter(d, refs[last]), refs[..last];
    if i: nat :| LastKnownAs(d, refs, k, p, i) {
      if i < last {
        assert front[i] == refs[i];
        assert LastKnownAs(d, front, k, p, i);
        assert r.Some? ==> Resolves(d, refs[last], r.value);
      }
    }
    if r == Some(p) && KeyOf(p) == k {
      assert LastKnownAs(d, refs, k, p, last);
    } else if !(r.Some? && KeyOf(r.value) == k) {
      if i: nat :| LastKnownAs(d, front, k, p, i) {
        assert refs[i] == front[i];
        forall j, q | i < j < |refs| && Resolves(d, refs[j], q) ensures !KnownAs(q, k) {
          if j < last {
            assert front[j] == refs[j];
          }
        }
        assert LastKnownAs(d, refs, k, p, i);
      }
    }
  }

  /** The operation takes this parameter: its own list comes after the path item's. */
  ghost predicate TakesAt(d: Document, p: string, m: Method, k: ParameterKey, x: Parameter)
    requires Has(d, p, m)
  {
    exists i: nat :: LastKnownAs(d, d.paths[p].parameters + d.paths[p].operations[m].parameters, k, x, i)
  }

  lemma TakesIff(d: Document, p: string, m: Method, k: ParameterKey, x: Parameter)
    requires Has(d, p, m)
    ensures var parameters := ParametersOf(d, d.paths[p], d.paths[p].operations[m]);
            TakesAt(d, p, m, k, x) <==> k in parameters && parameters[k] == x
  {
    ParameterMapIs(d, d.paths[p].parameters + d.paths[p].operations[m].parameters, k, x);
  }

  // --- What has to stay --------------------------------------------------------------------

  /** Which parameters are taken, by key. */
  type Taken = (ParameterKey, Parameter) -> bool

  /** None is newly required, none goes without notice; path parameters are exempt. */
  ghost predicate Stay(was: Taken, now: Taken) {
    && (forall k, x, y :: was(k, x) && now(k, y) && k.0 != Path && y.required ==> x.required)
    && (forall k, x :: was(k, x) && k.0 != Path && !x.deprecated ==> exists y :: now(k, y))
    && (forall k, y :: now(k, y) && k.0 != Path && y.required ==> exists x :: was(k, x))
  }

  ghost predicate ParametersStay(was: Document, now: Document, p: string, m: Method)
    requires Has(was, p, m) && Has(now, p, m)
  {
    Stay((k, x) => TakesAt(was, p, m, k, x), (k, x) => TakesAt(now, p, m, k, x))
  }

  /** An operation goes only if deprecated; a kept one keeps its response codes, loses no parameter without
      notice and requires none that was not required. */
  ghost predicate OperationStays(was: Document, now: Document, p: string, m: Method)
    requires Has(was, p, m)
  {
    if !Has(now, p, m) then was.paths[p].operations[m].deprecated
    else
      && (forall s :: s in was.paths[p].operations[m].responses ==> s in now.paths[p].operations[m].responses)
      && ParametersStay(was, now, p, m)
  }

  ghost predicate AllStay(was: Document, now: Document) {
    forall p, m :: Has(was, p, m) ==> OperationStays(was, now, p, m)
  }

  lemma StayIff(was: Taken, now: Taken, olds: map<ParameterKey, Parameter>, news: map<ParameterKey, Parameter>)
    requires forall k, x :: was(k, x) <==> k in olds && olds[k] == x
    requires forall k, x :: now(k, x) <==> k in news && news[k] == x
    ensures Stay(was, now) <==> ParametersKept(olds, news)
  {
    if Stay(was, now) {
      forall k | k in olds
        ensures if k in news then k.0.Path? || olds[k].required || !news[k].required else olds[k].deprecated || k.0.Path?
      {
        assert was(k, olds[k]);
        if k in news {
          assert now(k, news[k]);
        }
      }
      forall k | k in news && news[k].required && !k.0.Path? ensures k in olds {
        assert now(k, news[k]);
      }
    }
    if ParametersKept(olds, news) {
      forall k, x | was(k, x) && k.0 != Path && !x.deprecated ensures exists y :: now(k, y) {
        assert k in news && now(k, news[k]);
      }
      forall k, y | now(k, y) && k.0 != Path && y.required ensures exists x :: was(k, x) {
        assert k in olds && was(k, olds[k]);
      }
    }
  }

  lemma ParametersStayIff(was: Document, now: Document, p: string, m: Method)
    requires Has(was, p, m) && Has(now, p, m)
    ensures ParametersStay(was, now, p, m) <==>
              ParametersKept(ParametersOf(was, was.paths[p], was.paths[p].operations[m]),
                             ParametersOf(now, now.paths[p], now.paths[p].operations[m]))
  {
    var olds := ParametersOf(was, was.paths[p], was.paths[p].operations[m]);
    var news := ParametersOf(now, now.paths[p], now.paths[p].operations[m]);
    forall k, x ensures TakesAt(was, p, m, k, x) <==> k in olds && olds[k] == x { TakesIff(was, p, m, k, x); }
    forall k, x ensures TakesAt(now, p, m, k, x) <==> k in news && news[k] == x { TakesIff(now, p, m, k, x); }
    StayIff((k, x) => TakesAt(was, p, m, k, x), (k, x) => TakesAt(now, p, m, k, x), olds, news);
  }

  lemma AllStayIff(was: Document, now: Document)
    ensures AllStay(was, now) <==> SurfaceKept(was, now)
  {
    forall p, m | Has(was, p, m) && Has(now, p, m)
      ensures OperationStays(was, now, p, m) <==> OperationKept(was, now, was.paths[p], now.paths[p], m)
    {
      ParametersStayIff(was, now, p, m);
    }
    if AllStay(was, now) {
      forall p | p in was.paths && was.paths[p].PathItem? ensures PathKept(was, now, p) {
        forall m | m in was.paths[p].operations
          ensures if p in now.paths && now.paths[p].PathItem? then OperationKept(was, now, was.paths[p], now.paths[p], m)
                  else was.paths[p].operations[m].deprecated
        {
          assert Has(was, p, m) && OperationStays(was, now, p, m);
        }
      }
    }
    if SurfaceKept(was, now) {
      forall p, m | Has(was, p, m) ensures OperationStays(was, now, p, m) {
        assert PathKept(was, now, p);
        if p in now.paths && now.paths[p].PathItem? {
          assert OperationKept(was, now, was.paths[p], now.paths[p], m);
        }
      }
    }
  }

  // --- What is put side by side ----------------------------------------------------------------

  /** The inline request body of an operation, for one media type. */
  ghost predicate BodySchema(d: Document, p: string, m: Method, media: string, x: SchemaRef) {
    && Has(d, p, m)
    && var body := d.paths[p].operations[m].body;
       body.Some? && body.value.InlineBody? && media in body.value.content && body.value.content[media] == Some(x)
  }

  /** The schema of an inline response, for one status and media type. */
  ghost predicate ResponseSchema(d: Document, p: string, m: Method, status: string, media: string, x: SchemaRef) {
    && Has(d, p, m)
    && var responses := d.paths[p].operations[m].responses;
       && status in responses && responses[status].InlineBody?
       && media in responses[status].content && responses[status].content[media] == Some(x)
  }

  ghost predicate ParameterSchema(d: Document, p: string, m: Method, k: ParameterKey, x: SchemaRef) {
    Has(d, p, m) && exists q :: TakesAt(d, p, m, k, q) && q.format == BySchema(x)
  }

  ghost predicate LeadTo(was: Document, now: Document, x: SchemaRef, y: SchemaRef, c: Comparison) {
    ResolveRef(was.schemas, x) == Some(c.was) && ResolveRef(now.schemas, y) == Some(c.now)
  }

  ghost predicate FacesByName(was: Document, now: Document, request: set<string>, c: Comparison) {
    exists n :: n in was.schemas && n in now.schemas && was.schemas[n] == Inline(c.was) && now.schemas[n] == Inline(c.now) &&
      (c.isRequest <==> n in request)
  }

  ghost predicate FacesInBody(was: Document, now: Document, c: Comparison) {
    c.isRequest && exists p, m, media, x, y ::
      BodySchema(was, p, m, media, x) && BodySchema(now, p, m, media, y) && LeadTo(was, now, x, y, c)
  }

  ghost predicate FacesInResponse(was: Document, now: Document, c: Comparison) {
    !c.isRequest && exists p, m, status, media, x, y ::
      ResponseSchema(was, p, m, status, media, x) && ResponseSchema(now, p, m, status, media, y) && LeadTo(was, now, x, y, c)
  }

  ghost predicate FacesInParameter(was: Document, now: Document, c: Comparison) {
    c.isRequest && exists p, m, k, x, y ::
      ParameterSchema(was, p, m, k, x) && ParameterSchema(now, p, m, k, y) && LeadTo(was, now, x, y, c)
  }

  /** Named schemas of one name, and what bodies, responses and parameters of one operation hold, each
      resolved one level. */
  ghost predicate Faces(was: Document, now: Document, request: set<string>, c: Comparison) {
    FacesByName(was, now, request, c) || FacesInBody(was, now, c) || FacesInResponse(was, now, c) || FacesInParameter(was, now, c)
  }

  lemma PairIff(was: Document, now: Document, x: SchemaRef, y: SchemaRef, c: Comparison)
    ensures c in Pair(was, now, x, y, c.isRequest) <==> LeadTo(was, now, x, y, c)
    ensures forall isRequest :: c in Pair(was, now, x, y, isRequest) ==> c.isRequest == isRequest
  {}

  lemma BodyPairsIff(was: Document, now: Document, p: string, m: Method, c: Comparison)
    requires Has(was, p, m) && Has(now, p, m)
    ensures c in BodyPairs(was, now, was.paths[p].operations[m], now.paths[p].operations[m]) <==>
              c.isRequest && exists media, x, y ::
                BodySchema(was, p, m, media, x) && BodySchema(now, p, m, media, y) && LeadTo(was, now, x, y, c)
  {
    var o, n := was.paths[p].operations[m], now.paths[p].operations[m];
    if c in BodyPairs(was, now, o, n) {
      var xs, ys := o.body.value.content, n.body.value.content;
      var media :| media in xs && media in ys && xs[media].Some? && ys[media].Some? && c in Pair(was, now, xs[media].value, ys[media].value, true);
      assert BodySchema(was, p, m, media, xs[media].value) && BodySchema(now, p, m, media, ys[media].value);
    }
    if c.isRequest {
      if media, x, y :| BodySchema(was, p, m, media, x) && BodySchema(now, p, m, media, y) && LeadTo(was, now, x, y, c) {
        assert c in Pair(was, now, x, y, true);
      }
    }
  }

  lemma ResponsePairsIff(was: Document, now: Document, p: string, m: Method, c: Comparison)
    requires Has(was, p, m) && Has(now, p, m)
    ensures c in ResponsePairs(was, now, was.paths[p].operations[m], now.paths[p].operations[m]) <==>
              !c.isRequest && exists status, media, x, y ::
                ResponseSchema(was, p, m, status, media, x) && ResponseSchema(now, p, m, status, media, y) && LeadTo(was, now, x, y, c)
  {
    var o, n := was.paths[p].operations[m], now.paths[p].operations[m];
    if c in ResponsePairs(was, now, o, n) {
      var s :| s in o.responses && s in n.responses && c in ContentPairs(was, now, o.responses[s], n.responses[s], false);
      var media, x, y := PairedContent(was, now, o.responses[s], n.responses[s], false, c);
      assert ResponseSchema(was, p, m, s, media, x) && ResponseSchema(now, p, m, s, media, y);
    }
    if !c.isRequest {
      if s, media, x, y :| ResponseSchema(was, p, m, s, media, x) && ResponseSchema(now, p, m, s, media, y) && LeadTo(was, now, x, y, c) {
        ContentPaired(was, now, o.responses[s], n.responses[s], false, media, x, y, c);
      }
    }
  }

  lemma PairedContent(was: Document, now: Document, a: Body, b: Body, isRequest: bool, c: Comparison)
    returns (media: string, x: SchemaRef, y: SchemaRef)
    requires c in ContentPairs(was, now, a, b, isRequest)
    ensures a.InlineBody? && b.InlineBody? && media in a.content && media in b.content
    ensures a.content[media] == Some(x) && b.content[media] == Some(y) && LeadTo(was, now, x, y, c) && c.isRequest == isRequest
  {
    media :| media in a.content && media in b.content && a.content[media].Some? && b.content[media].Some? &&
      c in Pair(was, now, a.content[media].value, b.content[media].value, isRequest);
    x, y := a.content[media].value, b.content[media].value;
  }

  lemma ContentPaired(was: Document, now: Document, a: Body, b: Body, isRequest: bool, media: string, x: SchemaRef, y: SchemaRef, c: Comparison)
    requires a.InlineBody? && b.InlineBody? && media in a.content && media in b.content && c.isRequest == isRequest
    requires a.content[media] == Some(x) && b.content[media] == Some(y) && LeadTo(was, now, x, y, c)
    ensures c in ContentPairs(was, now, a, b, isRequest)
  {
    assert c in Pair(was, now, x, y, isRequest);
  }

  lemma ParameterSchemaIff(d: Document, p: string, m: Method, k: ParameterKey, x: SchemaRef)
    requires Has(d, p, m)
    ensures var parameters := ParametersOf(d, d.paths[p], d.paths[p].operations[m]);
            ParameterSchema(d, p, m, k, x) <==> k in parameters && parameters[k].format == BySchema(x)
  {
    var parameters := ParametersOf(d, d.paths[p], d.paths[p].operations[m]);
    if ParameterSchema(d, p, m, k, x) {
      var q :| TakesAt(d, p, m, k, q) && q.format == BySchema(x);
      TakesIff(d, p, m, k, q);
    }
    if k in parameters {
      TakesIff(d, p, m, k, parameters[k]);
    }
  }

  lemma ParameterPairsIff(was: Document, now: Document, p: string, m: Method, c: Comparison)
    requires Has(was, p, m) && Has(now, p, m)
    ensures c in ParameterPairs(was, now, ParametersOf(was, was.paths[p], was.paths[p].operations[m]),
                                ParametersOf(now, now.paths[p], now.paths[p].operations[m])) <==>
              c.isRequest && exists k, x, y ::
                ParameterSchema(was, p, m, k, x) && ParameterSchema(now, p, m, k, y) && LeadTo(was, now, x, y, c)
  {
    var xs := ParametersOf(was, was.paths[p], was.paths[p].operations[m]);
    var ys := ParametersOf(now, now.paths[p], now.paths[p].operations[m]);
    if c in ParameterPairs(was, now, xs, ys) {
      var k, x, y := PairedParameters(was, now, p, m, c);
    }
    if c.isRequest {
      if k, x, y :| ParameterSchema(was, p, m, k, x) && ParameterSchema(now, p, m, k, y) && LeadTo(was, now, x, y, c) {
        ParametersPaired(was, now, p, m, c, k, x, y);
      }
    }
  }

  lemma PairedParameters(was: Document, now: Document, p: string, m: Method, c: Comparison)
    returns (k: ParameterKey, x: SchemaRef, y: SchemaRef)
    requires Has(was, p, m) && Has(now, p, m)
    requires c in ParameterPairs(was, now, ParametersOf(was, was.paths[p], was.paths[p].operations[m]),
                                 ParametersOf(now, now.paths[p], now.paths[p].operations[m]))
    ensures c.isRequest && ParameterSchema(was, p, m, k, x) && ParameterSchema(now, p, m, k, y) && LeadTo(was, now, x, y, c)
  {
    var xs := ParametersOf(was, was.paths[p], was.paths[p].operations[m]);
    var ys := ParametersOf(now, now.paths[p], now.paths[p].operations[m]);
    k :| k in xs && k in ys && xs[k].format.BySchema? && ys[k].format.BySchema? &&
      c in Pair(was, now, xs[k].format.schema, ys[k].format.schema, true);
    x, y := xs[k].format.schema, ys[k].format.schema;
    ParameterSchemaIff(was, p, m, k, x);
    ParameterSchemaIff(now, p, m, k, y);
  }

  lemma ParametersPaired(was: Document, now: Document, p: string, m: Method, c: Comparison, k: ParameterKey, x: SchemaRef, y: SchemaRef)
    requires Has(was, p, m) && Has(now, p, m) && c.isRequest
    requires ParameterSchema(was, p, m, k, x) && ParameterSchema(now, p, m, k, y) && LeadTo(was, now, x, y, c)
    ensures c in ParameterPairs(was, now, ParametersOf(was, was.paths[p], was.paths[p].operations[m]),
                                ParametersOf(now, now.paths[p], now.paths[p].operations[m]))
  {
    ParameterSchemaIff(was, p, m, k, x);
    ParameterSchemaIff(now, p, m, k, y);
    assert c in Pair(was, now, x, y, true);
  }

  /** The comparisons of the check are exactly these. */
  lemma FacesIff(was: Document, now: Document, request: set<string>, c: Comparison)
    ensures c in Comparisons(was, now, request) <==> Faces(was, now, request, c)
  {
    assert c in NamedPairs(was, now, request) <==> FacesByName(was, now, request, c);
    if c in PathPairs(was, now) {
      var p, m := ComparisonSource(was, now, c);
      BodyPairsIff(was, now, p, m, c);
      ResponsePairsIff(was, now, p, m, c);
      ParameterPairsIff(was, now, p, m, c);
    }
    if FacesInBody(was, now, c) {
      var p, m, media, x, y :| BodySchema(was, p, m, media, x) && BodySchema(now, p, m, media, y) && LeadTo(was, now, x, y, c);
      BodyPairsIff(was, now, p, m, c);
      assert InBoth(was, now, p, m) && c in OperationPairs(was, now, p, m);
    }
    if FacesInResponse(was, now, c) {
      var p, m, s, media, x, y :|
        ResponseSchema(was, p, m, s, media, x) && ResponseSchema(now, p, m, s, media, y) && LeadTo(was, now, x, y, c);
      ResponsePairsIff(was, now, p, m, c);
      assert InBoth(was, now, p, m) && c in OperationPairs(was, now, p, m);
    }
    if FacesInParameter(was, now, c) {
      var p, m, k, x, y :| ParameterSchema(was, p, m, k, x) && ParameterSchema(now, p, m, k, y) && LeadTo(was, now, x, y, c);
      ParameterPairsIff(was, now, p, m, c);
      assert InBoth(was, now, p, m) && c in OperationPairs(was, now, p, m);
    }
  }

  ghost predicate NothingBreaks(was: Document, now: Document, request: set<string>) {
    AllStay(was, now) && forall c :: Faces(was, now, request, c) ==> NoClash(SpecsOf(was, now), c.was, c.now, c.isRequest)
  }

  /** A finished check accepts two documents exactly when every operation stays and nothing below what they
      put side by side differs in a breaking way. */
  lemma AcceptedIffNothingBreaks(was: Document, now: Document, request: set<string>, fuel: nat)
    requires CheckDocuments(was, now, request, fuel) != Unfinished
    ensures CheckDocuments(was, now, request, fuel) == Accept <==> NothingBreaks(was, now, request)
  {
    AcceptedIffNoClash(was, now, request, fuel);
    AllStayIff(was, now);
    forall c ensures c in Comparisons(was, now, request) <==> Faces(was, now, request, c) {
      FacesIff(was, now, request, c);
    }
  }

  // --- What counts as new ------------------------------------------------------------------------

  ghost predicate SomethingNew(was: Document, now: Document) {
    || (exists p :: p in now.paths && p !in was.paths)
    || (exists p, m :: Has(now, p, m) && p in was.paths && was.paths[p].PathItem? && NewAt(was, now, p, m))
    || (exists n :: n in now.schemas && now.schemas[n].Inline? && !(n in was.schemas && was.schemas[n].Inline?))
    || (exists n, k :: HasField(now, n, k) && IsObjectNamed(was, n) && !HasField(was, n, k))
  }

  ghost predicate NewAt(was: Document, now: Document, p: string, m: Method)
    requires Has(now, p, m)
  {
    !Has(was, p, m) ||
    exists s :: s in now.paths[p].operations[m].responses && s !in was.paths[p].operations[m].responses
  }

  predicate IsObjectNamed(d: Document, n: string) {
    n in d.schemas && d.schemas[n].Inline? && d.schemas[n].schema.kind.ObjectType?
  }

  predicate HasField(d: Document, n: string, k: string) {
    IsObjectNamed(d, n) && k in d.schemas[n].schema.kind.properties
  }

  lemma NewOperationsIff(was: Document, now: Document, p: string)
    requires p in now.paths && now.paths[p].PathItem? && p in was.paths && was.paths[p].PathItem?
    ensures NewOperations(was.paths[p], now.paths[p]) <==> exists m :: Has(now, p, m) && NewAt(was, now, p, m)
  {
    if NewOperations(was.paths[p], now.paths[p]) {
      var m :| m in now.paths[p].operations &&
        (m !in was.paths[p].operations || !(now.paths[p].operations[m].responses.Keys <= was.paths[p].operations[m].responses.Keys));
      assert Has(now, p, m) && NewAt(was, now, p, m);
    }
  }

  lemma SomethingNewIff(was: Document, now: Document)
    ensures HasAdditions(was, now) <==> SomethingNew(was, now)
  {
    forall p | p in now.paths && now.paths[p].PathItem? && p in was.paths && was.paths[p].PathItem? {
      NewOperationsIff(was, now, p);
    }
    if p, m :| Has(now, p, m) && p in was.paths && was.paths[p].PathItem? && NewAt(was, now, p, m) {
      assert NewOperations(was.paths[p], now.paths[p]);
    }
    if n, k :| HasField(now, n, k) && IsObjectNamed(was, n) && !HasField(was, n, k) {
      assert NewFields(was.schemas[n].schema, now.schemas[n].schema);
    }
    if HasAdditions(was, now) {
      if n :| n in now.schemas && now.schemas[n].Inline? && n in was.schemas && was.schemas[n].Inline? &&
              NewFields(was.schemas[n].schema, now.schemas[n].schema) {
        var k :| k in now.schemas[n].schema.kind.properties && k !in was.schemas[n].schema.kind.properties;
        assert HasField(now, n, k) && IsObjectNamed(was, n) && !HasField(was, n, k);
      }
    }
  }

  /** Each outcome of the classification, in the documents' terms. */
  lemma ImpactIff(was: Document, now: Document, request: set<string>, fuel: nat)
    requires CheckDocuments(was, now, request, fuel) != Unfinished
    ensures AnalyzeImpact(was, now, request, fuel) == Major <==> !NothingBreaks(was, now, request)
    ensures AnalyzeImpact(was, now, request, fuel) == Minor <==> NothingBreaks(was, now, request) && SomethingNew(was, now)
    ensures AnalyzeImpact(was, now, request, fuel) == NoImpact <==> NothingBreaks(was, now, request) && !SomethingNew(was, now)
  {
    AcceptedIffNothingBreaks(was, now, request, fuel);
    SomethingNewIff(was, now);
  }

  // --- Which schemas are requests ------------------------------------------------------------------

  /** Some schema written inside this one refers to `r`, as a subschema or anywhere else. */
  ghost predicate Mentions(s: Schema, r: string) {
    exists t :: t in Nested(s) && (Ref(r) in Children(t) || r in SchemaRefs.AllRefs(t.rest))
  }

  lemma {:induction false} MentionsIff(s: Schema, r: string)
    ensures r in SchemaRefStrings(s) <==> Mentions(s, r)
    decreases s
  {
    ChildMentions(s, r);
    RestMentions(s, r);
  }

  lemma {:induction false} ChildMentions(s: Schema, r: string)
    ensures r in ChildRefs(s) <==> exists t :: t in Nested(s) && Ref(r) in Children(t)
    decreases s
  {
    assert s in Nested(s);
    match s.kind
    case ArrayType(Some(x)) =>
      assert Children(s) == {x};
      if x.Inline? {
        ChildMentions(x.schema, r);
        assert Nested(s) == {s} + Nested(x.schema);
      } else {
        assert Nested(s) == {s} && x == Ref(x.reference);
        ItemRef(s, x.reference);
      }
    case ObjectType(props, _) =>
      forall p | p in props && props[p].Inline? { ChildMentions(props[p].schema, r); }
      if r in ChildRefs(s) {
        var p :| p in props && r in RefsOf(props[p]);
        if props[p].Inline? {
          var t :| t in Nested(props[p].schema) && Ref(r) in Children(t);
          assert t in NestedRef(props[p]);
        } else {
          assert props[p] in Children(s);
        }
      }
      if t :| t in Nested(s) && Ref(r) in Children(t) {
        if t != s {
          var p :| p in props && t in NestedRef(props[p]);
          assert r in RefsOf(props[p]);
        } else {
          var p :| p in props && props[p] == Ref(r);
          assert r in RefsOf(props[p]);
        }
      }
    case _ =>
  }

  lemma ItemRef(s: Schema, r: string)
    requires s.kind == ArrayType(Some(Ref(r)))
    ensures ChildRefs(s) == {r}
  {
    assert RefsOf(Ref(r)) == {r};
  }

  lemma {:induction false} RestMentions(s: Schema, r: string)
    ensures r in InnerRests(s) <==> exists t :: t in Nested(s) && r in SchemaRefs.AllRefs(t.rest)
    decreases s
  {
    assert s in Nested(s);
    match s.kind
    case ArrayType(Some(x)) =>
      if x.Inline? { RestMentions(x.schema, r); }
    case ObjectType(props, _) =>
      forall p | p in props && props[p].Inline? { RestMentions(props[p].schema, r); }
      if r in InnerRests(s) && r !in SchemaRefs.AllRefs(s.rest) {
        var p :| p in props && props[p].Inline? && r in InnerRests(props[p].schema);
        var t :| t in Nested(props[p].schema) && r in SchemaRefs.AllRefs(t.rest);
        assert t in NestedRef(props[p]);
      }
      if t :| t in Nested(s) && r in SchemaRefs.AllRefs(t.rest) {
        if t != s {
          var p :| p in props && t in NestedRef(props[p]);
          assert r in InnerRests(props[p].schema);
        }
      }
    case _ =>
  }

  ghost predicate BodyMentions(body: Body, r: string) {
    match body
    case BodyAt(reference) => r == reference
    case InlineBody(content, rest) =>
      || r in SchemaRefs.AllRefs(rest)
      || exists media :: media in content &&
           (content[media] == Some(Ref(r)) || (content[media].Some? && content[media].value.Inline? && Mentions(content[media].value.schema, r)))
  }

  /** A request body names the component schema. */
  ghost predicate NamedInBody(d: Document, name: string) {
    exists p, m :: Has(d, p, m) && d.paths[p].operations[m].body.Some? &&
      BodyMentions(d.paths[p].operations[m].body.value, "#/components/schemas/" + name)
  }

  lemma NamedIff(refs: set<string>, name: string)
    ensures name in Named(refs) <==> "#/components/schemas/" + name in refs
  {
    var prefix := "#/components/schemas/";
    assert SchemaRefs.SCHEMAS == prefix;
    if name in Named(refs) {
      var r :| r in refs && RefTarget(r) == Some(name);
      assert r == prefix + name;
    }
    if prefix + name in refs {
      assert (prefix + name)[|prefix|..] == name;
      assert RefTarget(prefix + name) == Some(name);
    }
  }

  lemma BodyMentionsIff(body: Body, r: string)
    ensures r in BodyRefs(body) <==> BodyMentions(body, r)
  {
    if body.InlineBody? {
      var content := body.content;
      forall media | media in content && content[media].Some?
        ensures r in SchemaRefStringsOf(content[media].value) <==>
                  content[media] == Some(Ref(r)) || (content[media].value.Inline? && Mentions(content[media].value.schema, r))
      {
        if content[media].value.Inline? {
          MentionsIff(content[media].value.schema, r);
        }
      }
    }
  }

  /** The closure of the request schemas starts from those that request bodies name. */
  lemma RequestRootsAre(d: Document, name: string)
    ensures name in RequestRoots(d) <==> NamedInBody(d, name)
  {
    var r := "#/components/schemas/" + name;
    if NamedInBody(d, name) {
      var p, m :| Has(d, p, m) && d.paths[p].operations[m].body.Some? && BodyMentions(d.paths[p].operations[m].body.value, r);
      NamedInBodyIff(d.paths[p].operations[m].body.value, name);
    }
    if name in RequestRoots(d) {
      var p, m :| p in d.paths && d.paths[p].PathItem? && m in d.paths[p].operations && d.paths[p].operations[m].body.Some? &&
        name in Named(BodyRefs(d.paths[p].operations[m].body.value));
      NamedInBodyIff(d.paths[p].operations[m].body.value, name);
      assert Has(d, p, m);
    }
  }

  lemma NamedInBodyIff(body: Body, name: string)
    ensures name in Named(BodyRefs(body)) <==> BodyMentions(body, "#/components/schemas/" + name)
  {
    NamedIff(BodyRefs(body), name);
    BodyMentionsIff(body, "#/components/schemas/" + name);
  }

  /** And goes on to the schemas that an inline component mentions. */
  lemma RequestStepsAre(d: Document, name: string, next: string)
    ensures next in SchemaNext(d)(name) <==>
              name in d.schemas && d.schemas[name].Inline? && Mentions(d.schemas[name].schema, "#/components/schemas/" + next)
  {
    if name in d.schemas && d.schemas[name].Inline? {
      NamedIff(SchemaRefStrings(d.schemas[name].schema), next);
      MentionsIff(d.schemas[name].schema, "#/components/schemas/" + next);
    }
  }
}
