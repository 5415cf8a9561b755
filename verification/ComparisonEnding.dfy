/** Exactly when the comparison of two schemas, and of two documents, ends. */
module ComparisonEnding {
  import opened Json
  import opened Reachability
  import opened SchemaCompat
  import opened OpenApiCompat

  /** The pairs the comparison of a pair goes on to: none once the pair itself is broken. */
  function NextCompared(specs: Specs, isRequest: bool): Facing -> set<Facing> {
    (p: Facing) => if KeptHere(p.was.kind, p.now.kind, isRequest) then NextFacing(specs)(p) else {}
  }

  lemma NextWhenUnbroken(specs: Specs, isRequest: bool, p: Facing)
    ensures NextCompared(specs, isRequest)(p) <= NextFacing(specs)(p)
    ensures !BrokenHere(p.was.kind, p.now.kind, isRequest) ==> NextCompared(specs, isRequest)(p) == NextFacing(specs)(p)
    ensures BrokenHere(p.was.kind, p.now.kind, isRequest) ==> NextCompared(specs, isRequest)(p) == {}
  {
    KeptHereIff(p.was.kind, p.now.kind, isRequest);
  }

  /** From this pair the comparison comes back to it. */
  ghost predicate OnLoop(specs: Specs, isRequest: bool, p: Facing) {
    Reach(NextCompared(specs, isRequest)(p), NextCompared(specs, isRequest), p)
  }

  ghost predicate RunsIntoLoop(specs: Specs, was: Schema, now: Schema, isRequest: bool) {
    exists p :: Reach({Facing(was, now)}, NextCompared(specs, isRequest), p) && OnLoop(specs, isRequest, p)
  }

  ghost predicate Ends(specs: Specs, was: Schema, now: Schema, isRequest: bool) {
    exists fuel: nat :: Check(specs, was, now, isRequest, fuel) != Unfinished
  }

  // --- A loop is never left ------------------------------------------------------------

  /** `p` lies ahead of `q`. */
  ghost predicate Ahead(specs: Specs, isRequest: bool, q: Facing, p: Facing) {
    Reach(NextCompared(specs, isRequest)(q), NextCompared(specs, isRequest), p)
  }

  lemma StillAhead(specs: Specs, isRequest: bool, q: Facing, p: Facing) returns (following: Facing)
    requires OnLoop(specs, isRequest, p) && Ahead(specs, isRequest, q, p)
    ensures following in NextCompared(specs, isRequest)(q) && Ahead(specs, isRequest, following, p)
  {
    var next := NextCompared(specs, isRequest);
    var path :| IsPath(next(q), next, path) && path[|path| - 1] == p;
    following := path[0];
    if |path| > 1 {
      var rest := path[1..];
      assert IsPath(next(following), next, rest) && rest[|rest| - 1] == p;
    }
  }

  lemma UnfinishedBelow(specs: Specs, q: Facing, following: Facing, isRequest: bool, fuel: nat)
    requires following in NextCompared(specs, isRequest)(q) && NextCompared(specs, isRequest)(following) != {}
    requires Check(specs, following.was, following.now, isRequest, fuel) == Unfinished
    ensures Check(specs, q.was, q.now, isRequest, fuel + 1) == Unfinished
  {
    NextWhenUnbroken(specs, isRequest, q);
    NextWhenUnbroken(specs, isRequest, following);
    match (q.was.kind, q.now.kind)
    case (ObjectType(op, _), ObjectType(np, _)) =>
      var k :| k in op && k in np && following in FacingBelow(specs, op[k], np[k]);
      assert CheckRef(specs, op[k], np[k], isRequest, fuel) == Unfinished;
    case (ArrayType(Some(x)), ArrayType(Some(y))) =>
      assert CheckRef(specs, x, y, isRequest, fuel) == Unfinished;
    case _ =>
  }

  /** Pairs each of which leads to another of them. */
  ghost predicate Endless(specs: Specs, isRequest: bool, pairs: Facing -> bool) {
    forall q {:trigger GoesOn(specs, isRequest, pairs, q)} :: pairs(q) ==> GoesOn(specs, isRequest, pairs, q)
  }

  ghost predicate GoesOn(specs: Specs, isRequest: bool, pairs: Facing -> bool, q: Facing) {
    exists following :: following in NextCompared(specs, isRequest)(q) && pairs(following)
  }

  lemma {:induction false} NeverEndsAmong(specs: Specs, isRequest: bool, pairs: Facing -> bool, q: Facing, fuel: nat)
    requires Endless(specs, isRequest, pairs) && pairs(q)
    ensures Check(specs, q.was, q.now, isRequest, fuel) == Unfinished
    decreases fuel
  {
    if fuel > 0 {
      assert GoesOn(specs, isRequest, pairs, q);
      var following :| following in NextCompared(specs, isRequest)(q) && pairs(following);
      assert GoesOn(specs, isRequest, pairs, following);
      NeverEndsAmong(specs, isRequest, pairs, following, fuel - 1);
      UnfinishedBelow(specs, q, following, isRequest, fuel - 1);
    }
  }

  lemma LoopIsEndless(specs: Specs, isRequest: bool, p: Facing)
    requires OnLoop(specs, isRequest, p)
    ensures Endless(specs, isRequest, (q: Facing) => Ahead(specs, isRequest, q, p))
  {
    forall q | Ahead(specs, isRequest, q, p)
      ensures GoesOn(specs, isRequest, (q: Facing) => Ahead(specs, isRequest, q, p), q)
    {
      var following := StillAhead(specs, isRequest, q, p);
    }
  }

  lemma StartAhead(specs: Specs, was: Schema, now: Schema, isRequest: bool, p: Facing)
    requires Reach({Facing(was, now)}, NextCompared(specs, isRequest), p) && OnLoop(specs, isRequest, p)
    ensures Ahead(specs, isRequest, Facing(was, now), p)
  {
    var next := NextCompared(specs, isRequest);
    var path :| IsPath({Facing(was, now)}, next, path) && path[|path| - 1] == p;
    if |path| > 1 {
      var rest := path[1..];
      assert IsPath(next(Facing(was, now)), next, rest) && rest[|rest| - 1] == p;
    }
  }

  // --- Without a loop the pairs run out ---------------------------------------------------

  /** A schema and all inline schemas inside it. */
  function Nested(s: Schema): set<Schema> {
    {s} +
    match s.kind
    case ArrayType(Some(x)) => NestedRef(x)
    case ObjectType(props, _) => set p, t | p in props && t in NestedRef(props[p]) :: t
    case _ => {}
  }

  function NestedRef(x: SchemaRef): set<Schema> {
    match x case Inline(s) => Nested(s) case Ref(_) => {}
  }

  /** Whatever stands inside a schema inside `s` stands inside `s`. */
  lemma {:induction false} NestedInside(s: Schema, t: Schema)
    requires t in Nested(s)
    ensures Nested(t) <= Nested(s)
    decreases s
  {
    if t != s {
      match s.kind
      case ArrayType(Some(Inline(inner))) => NestedInside(inner, t);
      case ObjectType(props, _) =>
        var p :| p in props && t in NestedRef(props[p]);
        NestedInside(props[p].schema, t);
        assert NestedRef(props[p]) <= Nested(s);
      case _ =>
    }
  }

  /** Every schema a comparison that starts at `s` can meet on one side. */
  function Pool(c: Components, s: Schema): set<Schema> {
    Nested(s) + set n, t | n in c && t in NestedRef(c[n]) :: t
  }

  lemma PoolClosed(c: Components, s: Schema, t: Schema, x: SchemaRef)
    requires t in Pool(c, s) && x in Children(t) && ResolveRef(c, x).Some?
    ensures ResolveRef(c, x).value in Pool(c, s)
  {
    match x
    case Inline(inner) =>
      assert inner in Nested(inner) && NestedRef(x) <= Nested(t);
      if t in Nested(s) {
        NestedInside(s, t);
      } else {
        var n :| n in c && t in NestedRef(c[n]);
        NestedInside(c[n].schema, t);
        assert inner in NestedRef(c[n]);
      }
    case Ref(r) =>
      var name := RefTarget(r).value;
      assert c[name].schema in NestedRef(c[name]);
  }

  function Pairs(specs: Specs, was: Schema, now: Schema): set<Facing> {
    set s, t | s in Pool(specs.was, was) && t in Pool(specs.now, now) :: Facing(s, t)
  }

  lemma PairsClosed(specs: Specs, was: Schema, now: Schema, p: Facing, q: Facing)
    requires p in Pairs(specs, was, now) && q in NextFacing(specs)(p)
    ensures q in Pairs(specs, was, now)
  {
    var x, y := MetBelow(specs, p, q);
    PoolClosed(specs.was, was, p.was, x);
    PoolClosed(specs.now, now, p.now, y);
  }

  /** The subschemas that put `q` side by side. */
  lemma MetBelow(specs: Specs, p: Facing, q: Facing) returns (x: SchemaRef, y: SchemaRef)
    requires q in NextFacing(specs)(p)
    ensures x in Children(p.was) && y in Children(p.now)
    ensures ResolveRef(specs.was, x) == Some(q.was) && ResolveRef(specs.now, y) == Some(q.now)
  {
    match (p.was.kind, p.now.kind)
    case (ObjectType(op, _), ObjectType(np, _)) =>
      var k :| k in op && k in np && q in FacingBelow(specs, op[k], np[k]);
      x, y := op[k], np[k];
    case (ArrayType(Some(a)), ArrayType(Some(b))) =>
      x, y := a, b;
    case _ =>
  }

  /** What the start can lead to, inside the finite set of pairs and off every loop. */
  ghost predicate Safe(specs: Specs, was: Schema, now: Schema, isRequest: bool, p: Facing) {
    && p in Pairs(specs, was, now)
    && Reach({Facing(was, now)}, NextCompared(specs, isRequest), p)
  }

  ghost function Left(specs: Specs, was: Schema, now: Schema, isRequest: bool, p: Facing): nat {
    ReachCount(Pairs(specs, was, now), NextCompared(specs, isRequest), p)
  }

  lemma SafeStep(specs: Specs, was: Schema, now: Schema, isRequest: bool, p: Facing, q: Facing)
    requires !RunsIntoLoop(specs, was, now, isRequest) && Safe(specs, was, now, isRequest, p)
    requires q in NextCompared(specs, isRequest)(p)
    ensures Safe(specs, was, now, isRequest, q)
    ensures Left(specs, was, now, isRequest, q) < Left(specs, was, now, isRequest, p)
  {
    NextWhenUnbroken(specs, isRequest, p);
    PairsClosed(specs, was, now, p, q);
    ReachStep({Facing(was, now)}, NextCompared(specs, isRequest), p, q);
    assert !OnLoop(specs, isRequest, q);
    ReachCountDrops(Pairs(specs, was, now), NextCompared(specs, isRequest), p, q);
  }

  /** Pairs that only lead to pairs of smaller measure. */
  ghost predicate RunsDown(specs: Specs, isRequest: bool, pairs: Facing -> bool, measure: Facing -> nat) {
    forall p, q :: pairs(p) && q in NextCompared(specs, isRequest)(p) ==> pairs(q) && measure(q) < measure(p)
  }

  lemma {:induction false} EndsByMeasure(
    specs: Specs, isRequest: bool, pairs: Facing -> bool, measure: Facing -> nat, p: Facing, fuel: nat)
    requires RunsDown(specs, isRequest, pairs, measure) && pairs(p) && measure(p) < fuel
    ensures Check(specs, p.was, p.now, isRequest, fuel) != Unfinished
    decreases fuel, 0
  {
    if !BrokenHere(p.was.kind, p.now.kind, isRequest) {
      NextWhenUnbroken(specs, isRequest, p);
      match (p.was.kind, p.now.kind)
      case (ObjectType(op, _), ObjectType(np, _)) =>
        forall k | k in op && k in np ensures CheckRef(specs, op[k], np[k], isRequest, fuel - 1) != Unfinished {
          FacingProperty(specs, p, isRequest, k);
          EndsBelow(specs, isRequest, pairs, measure, p, op[k], np[k], fuel - 1);
        }
        EndsWithProperties(specs, p, isRequest, fuel);
      case (ArrayType(Some(x)), ArrayType(Some(y))) =>
        assert NextFacing(specs)(p) == FacingBelow(specs, x, y);
        EndsBelow(specs, isRequest, pairs, measure, p, x, y, fuel - 1);
      case _ =>
    }
  }

  lemma {:induction false} EndsBelow(
    specs: Specs, isRequest: bool, pairs: Facing -> bool, measure: Facing -> nat, p: Facing, x: SchemaRef, y: SchemaRef, fuel: nat)
    requires RunsDown(specs, isRequest, pairs, measure) && pairs(p) && measure(p) <= fuel
    requires FacingBelow(specs, x, y) <= NextCompared(specs, isRequest)(p)
    ensures CheckRef(specs, x, y, isRequest, fuel) != Unfinished
    decreases fuel, 1
  {
    if !(x.Ref? && y.Ref?) && ResolveRef(specs.was, x).Some? && ResolveRef(specs.now, y).Some? {
      var q := Facing(ResolveRef(specs.was, x).value, ResolveRef(specs.now, y).value);
      assert q in FacingBelow(specs, x, y);
      EndsByMeasure(specs, isRequest, pairs, measure, q, fuel);
    }
  }

  lemma LoopNeverEnds(specs: Specs, was: Schema, now: Schema, isRequest: bool, fuel: nat)
    requires RunsIntoLoop(specs, was, now, isRequest)
    ensures Check(specs, was, now, isRequest, fuel) == Unfinished
  {
    var start := Facing(was, now);
    var p :| Reach({start}, NextCompared(specs, isRequest), p) && OnLoop(specs, isRequest, p);
    StartAhead(specs, was, now, isRequest, p);
    LoopIsEndless(specs, isRequest, p);
    NeverEndsAmong(specs, isRequest, (q: Facing) => Ahead(specs, isRequest, q, p), start, fuel);
  }

  lemma StartIsSafe(specs: Specs, was: Schema, now: Schema, isRequest: bool)
    ensures Safe(specs, was, now, isRequest, Facing(was, now))
  {
    assert was in Nested(was) && now in Nested(now);
    ReachStart({Facing(was, now)}, NextCompared(specs, isRequest), Facing(was, now));
  }

  lemma SafeRunsDown(specs: Specs, was: Schema, now: Schema, isRequest: bool)
    requires !RunsIntoLoop(specs, was, now, isRequest)
    ensures RunsDown(specs, isRequest, (p: Facing) => Safe(specs, was, now, isRequest, p),
                     (p: Facing) => Left(specs, was, now, isRequest, p))
  {
    forall p, q | Safe(specs, was, now, isRequest, p) && q in NextCompared(specs, isRequest)(p)
      ensures Safe(specs, was, now, isRequest, q) && Left(specs, was, now, isRequest, q) < Left(specs, was, now, isRequest, p)
    {
      SafeStep(specs, was, now, isRequest, p, q);
    }
  }

  lemma NoLoopEnds(specs: Specs, was: Schema, now: Schema, isRequest: bool)
    requires !RunsIntoLoop(specs, was, now, isRequest)
    ensures Ends(specs, was, now, isRequest)
  {
    var start := Facing(was, now);
    StartIsSafe(specs, was, now, isRequest);
    SafeRunsDown(specs, was, now, isRequest);
    var enough := Left(specs, was, now, isRequest, start) + 1;
    EndsByMeasure(specs, isRequest, (p: Facing) => Safe(specs, was, now, isRequest, p),
                  (p: Facing) => Left(specs, was, now, isRequest, p), start, enough);
  }

  /** The comparison of two schemas ends exactly when no pair it comes to, before a difference stops it,
      leads back to itself. */
  lemma EndsIffNoLoop(specs: Specs, was: Schema, now: Schema, isRequest: bool)
    ensures Ends(specs, was, now, isRequest) <==> !RunsIntoLoop(specs, was, now, isRequest)
  {
    if RunsIntoLoop(specs, was, now, isRequest) {
      forall fuel: nat ensures Check(specs, was, now, isRequest, fuel) == Unfinished {
        LoopNeverEnds(specs, was, now, isRequest, fuel);
      }
    } else {
      NoLoopEnds(specs, was, now, isRequest);
    }
  }

  // --- Documents ---------------------------------------------------------------------------------

  ghost predicate PairLoops(was: Document, now: Document, c: Comparison) {
    RunsIntoLoop(SpecsOf(was, now), c.was, c.now, c.isRequest)
  }

  ghost predicate AllEnd(was: Document, now: Document, pairs: set<Comparison>) {
    exists fuel: nat :: CheckAll(was, now, pairs, fuel) != Unfinished
  }

  lemma AllEndIff(was: Document, now: Document, pairs: set<Comparison>)
    ensures AllEnd(was, now, pairs) <==> forall c :: c in pairs ==> !PairLoops(was, now, c)
  {
    if AllEnd(was, now, pairs) {
      var fuel: nat :| CheckAll(was, now, pairs, fuel) != Unfinished;
      forall c | c in pairs ensures !PairLoops(was, now, c) {
        assert CheckPair(was, now, c, fuel) != Unfinished;
        EndsIffNoLoop(SpecsOf(was, now), c.was, c.now, c.isRequest);
      }
    } else if forall c :: c in pairs ==> !PairLoops(was, now, c) {
      forall c | c in pairs ensures exists n: nat :: CheckPair(was, now, c, n) != Unfinished {
        EndsIffNoLoop(SpecsOf(was, now), c.was, c.now, c.isRequest);
        var n: nat :| Check(SpecsOf(was, now), c.was, c.now, c.isRequest, n) != Unfinished;
        assert CheckPair(was, now, c, n) != Unfinished;
      }
      var enough := EnoughForAll(was, now, pairs);
      assert CheckAll(was, now, pairs, enough) != Unfinished;
    }
  }

  /** Some named schema differs in a breaking way, so the paths are not looked at. */
  ghost predicate NamedClash(was: Document, now: Document, request: set<string>) {
    exists c :: c in NamedPairs(was, now, request) && !NoClash(SpecsOf(was, now), c.was, c.now, c.isRequest)
  }

  lemma NamedVerdict(was: Document, now: Document, request: set<string>, fuel: nat)
    requires CheckAll(was, now, NamedPairs(was, now, request), fuel) != Unfinished
    ensures CheckAll(was, now, NamedPairs(was, now, request), fuel) == Reject <==> NamedClash(was, now, request)
  {
    forall c | c in NamedPairs(was, now, request)
      ensures CheckPair(was, now, c, fuel) == Accept <==> NoClash(SpecsOf(was, now), c.was, c.now, c.isRequest)
    {
      assert CheckPair(was, now, c, fuel) != Unfinished;
      AcceptsIffNoClash(SpecsOf(was, now), c.was, c.now, c.isRequest, fuel);
    }
  }

  /** The check of two documents ends exactly when no pair of named schemas runs into a loop and, unless
      one of those is rejected, no pair met at the paths does. */
  lemma DocumentCheckEndsIff(was: Document, now: Document, request: set<string>)
    ensures (exists fuel: nat :: CheckDocuments(was, now, request, fuel) != Unfinished) <==>
              && (forall c :: c in NamedPairs(was, now, request) ==> !PairLoops(was, now, c))
              && (NamedClash(was, now, request) || forall c :: c in PathPairs(was, now) ==> !PairLoops(was, now, c))
  {
    AllEndIff(was, now, NamedPairs(was, now, request));
    AllEndIff(was, now, PathPairs(was, now));
    if fuel: nat :| CheckDocuments(was, now, request, fuel) != Unfinished {
      NamedVerdict(was, now, request, fuel);
      assert CheckAll(was, now, NamedPairs(was, now, request), fuel) != Unfinished;
      assert NamedClash(was, now, request) || CheckAll(was, now, PathPairs(was, now), fuel) != Unfinished;
    } else if AllEnd(was, now, NamedPairs(was, now, request)) && (NamedClash(was, now, request) || AllEnd(was, now, PathPairs(was, now))) {
      EnoughForDocuments(was, now, request);
    }
  }

  lemma EnoughForDocuments(was: Document, now: Document, request: set<string>)
    requires AllEnd(was, now, NamedPairs(was, now, request))
    requires NamedClash(was, now, request) || AllEnd(was, now, PathPairs(was, now))
    ensures exists fuel: nat :: CheckDocuments(was, now, request, fuel) != Unfinished
  {
    var n: nat :| CheckAll(was, now, NamedPairs(was, now, request), n) != Unfinished;
    NamedVerdict(was, now, request, n);
    if NamedClash(was, now, request) {
      assert CheckDocuments(was, now, request, n) == Reject;
    } else {
      var m: nat :| CheckAll(was, now, PathPairs(was, now), m) != Unfinished;
      var enough := if n < m then m else n;
      AllStay(was, now, NamedPairs(was, now, request), n, enough);
      AllStay(was, now, PathPairs(was, now), m, enough);
      assert CheckDocuments(was, now, request, enough) != Unfinished;
    }
  }
}
