/** AsyncAPI message payloads as OpenAPI component schemas: carry over what the payloads reach. */
module AsyncConversion {
  import opened Json
  import opened Reachability
  import opened SchemaRefs

  type Table = map<string, Value>

  /** "Schema `source` of document `root` is wanted under `name`." */
  datatype Demand = Demand(root: Value, name: string, source: Value)

  /** Every reference resolves in the document. */
  ghost predicate Rewritable(root: Value, v: Value) {
    forall r :: r in VisitedRefs(v) ==> Resolve(root, r).Some?
  }

  lemma CarriedTarget(root: Value, r: string)
    requires Resolve(root, r).Some?
    ensures Resolve(root, CarriedPointer(r)).Some?
  {
    if Kept(r) {
      KeptRefResolves(root, r);
    }
  }

  /** The demand a reference makes on the document it stands in. */
  function DemandOf(root: Value, r: string): Demand {
    Demand(root, RefName(r), match Resolve(root, CarriedPointer(r)) case Some(t) => t case None => Null)
  }

  function DemandsOf(d: Demand): set<Demand> {
    set r | r in VisitedRefs(d.source) :: DemandOf(d.root, r)
  }

  /** A demand is met when its schema, respelled, stands under its name. */
  predicate Met(table: Table, d: Demand) {
    d.name in table && table[d.name] == Rewrite(d.source)
  }

  ghost predicate Wanted(starts: set<Demand>, d: Demand) {
    Reach(starts, DemandsOf, d)
  }

  /** Entry `k` was wanted, and everything its own references want is met. */
  ghost predicate Settled(starts: set<Demand>, table: Table, k: string) {
    k in table &&
    exists d :: Wanted(starts, d) && SettledBy(table, k, d)
  }

  ghost predicate SettledBy(table: Table, k: string, d: Demand) {
    && d.name == k
    && Met(table, d)
    && Rewritable(d.root, d.source)
    && forall e :: e in DemandsOf(d) ==> Met(table, e)
  }

  ghost predicate Grounded(starts: set<Demand>, table: Table) {
    forall k :: k in table ==> exists d :: Wanted(starts, d) && d.name == k && Met(table, d)
  }

  /** What stands in the way of a faithful conversion: a wanted schema with a reference that does
      not resolve, or one name wanted for two schemas that differ once respelled. */
  ghost predicate Conflict(starts: set<Demand>) {
    || (exists d :: Wanted(starts, d) && !Rewritable(d.root, d.source))
    || !Functional(starts)
  }

  ghost predicate Functional(starts: set<Demand>) {
    forall d, e :: Wanted(starts, d) && Wanted(starts, e) && d.name == e.name ==> Rewrite(d.source) == Rewrite(e.source)
  }

  ghost predicate Extends(a: Table, b: Table) {
    forall k :: k in a ==> k in b && a[k] == b[k]
  }

  /** `b` only adds to `a`, and what it adds is settled. */
  ghost predicate Grows(starts: set<Demand>, a: Table, b: Table) {
    && Extends(a, b)
    && forall k :: k in b && k !in a ==> Settled(starts, b, k)
  }

  lemma GrowsTransitive(starts: set<Demand>, a: Table, b: Table, c: Table)
    requires Grows(starts, a, b) && Grows(starts, b, c)
    ensures Grows(starts, a, c)
  {
    forall k | k in c && k !in a ensures Settled(starts, c, k) {
      if k in b {
        SettledStays(starts, b, c, k);
      }
    }
  }

  ghost predicate AllMet(table: Table, demands: seq<Demand>, n: nat)
    requires n <= |demands|
  {
    forall i :: 0 <= i < n ==> Met(table, demands[i])
  }

  lemma AllMetStep(a: Table, b: Table, demands: seq<Demand>, n: nat)
    requires n < |demands| && AllMet(a, demands, n) && Extends(a, b)
    requires Met(b, Demand(demands[n].root, demands[n].name, demands[n].source))
    ensures AllMet(b, demands, n + 1)
  {}

  lemma SettledStays(starts: set<Demand>, a: Table, b: Table, k: string)
    requires Settled(starts, a, k) && Extends(a, b)
    ensures Settled(starts, b, k)
  {
    var d :| Wanted(starts, d) && SettledBy(a, k, d);
    assert SettledBy(b, k, d);
  }

  // --- The algorithm ----------------------------------------------------

  ghost function Elements<T>(s: seq<T>): set<T> {
    set x | x in s
  }

  /** `queued` is `pending` with the demands of `refs` added. */
  ghost predicate Queued(root: Value, pending: seq<Demand>, refs: set<string>, queued: seq<Demand>) {
    Elements(queued) == Elements(pending) + set r | r in refs :: DemandOf(root, r)
  }

  lemma QueuedTwice(root: Value, pending: seq<Demand>, a: set<string>, mid: seq<Demand>, b: set<string>, queued: seq<Demand>)
    requires Queued(root, pending, a, mid) && Queued(root, mid, b, queued)
    ensures Queued(root, pending, a + b, queued)
  {}

  ghost function RefsUnder(f: map<string, Value>, keys: set<string>): set<string>
    requires keys <= f.Keys
  {
    set k, r | k in keys && r in VisitedRefs(f[k]) :: r
  }

  ghost function RefsUpTo(items: seq<Value>, n: nat): set<string>
    requires n <= |items|
  {
    if n == 0 then {} else RefsUpTo(items, n - 1) + VisitedRefs(items[n - 1])
  }

  lemma {:induction false} RefsUpToHave(items: seq<Value>, n: nat, r: string)
    requires n <= |items|
    ensures r in RefsUpTo(items, n) <==> exists i :: 0 <= i < n && r in VisitedRefs(items[i])
  {
    if n > 0 {
      RefsUpToHave(items, n - 1, r);
    }
  }

  lemma QueuedField(root: Value, pending: seq<Demand>, f: map<string, Value>, done: set<string>, k: string, mid: seq<Demand>, queued: seq<Demand>)
    requires done <= f.Keys && k in f
    requires Queued(root, pending, RefsUnder(f, done), mid) && Queued(root, mid, VisitedRefs(f[k]), queued)
    ensures Queued(root, pending, RefsUnder(f, done + {k}), queued)
  {
    QueuedTwice(root, pending, RefsUnder(f, done), mid, VisitedRefs(f[k]), queued);
    assert RefsUnder(f, done + {k}) == RefsUnder(f, done) + VisitedRefs(f[k]);
  }

  lemma QueuedItem(root: Value, pending: seq<Demand>, items: seq<Value>, i: nat, mid: seq<Demand>, queued: seq<Demand>)
    requires i < |items|
    requires Queued(root, pending, RefsUpTo(items, i), mid) && Queued(root, mid, VisitedRefs(items[i]), queued)
    ensures Queued(root, pending, RefsUpTo(items, i + 1), queued)
  {
    QueuedTwice(root, pending, RefsUpTo(items, i), mid, VisitedRefs(items[i]), queued);
  }

  ghost function OwnRef(node: Value): set<string> {
    match RefOf(node) case Some(r) => {r} case None => {}
  }

  ghost predicate FieldsRewritable(root: Value, f: map<string, Value>) {
    forall k :: k in f && k != "$ref" ==> Rewritable(root, f[k])
  }

  lemma FieldsRewritten(node: Value, g: map<string, Value>)
    requires node.Object? && g.Keys == node.fields.Keys
    requires forall k :: k in g && k != "$ref" ==> g[k] == Rewrite(node.fields[k])
    requires "$ref" in g ==> g["$ref"] == Rewrite(node).fields["$ref"]
    ensures Object(g) == Rewrite(node)
  {
    assert g == Rewrite(node).fields;
  }

  lemma ObjectRefs(root: Value, node: Value)
    requires node.Object?
    ensures VisitedRefs(node) == OwnRef(node) + RefsUnder(node.fields, node.fields.Keys - {"$ref"})
    ensures Rewritable(root, node) <==>
              (forall r :: r in OwnRef(node) ==> Resolve(root, r).Some?) && FieldsRewritable(root, node.fields)
  {
    var f := node.fields;
    assert VisitedRefs(node) == OwnRef(node) + RefsUnder(f, f.Keys - {"$ref"});
    if Rewritable(root, node) {
      forall k, r | k in f && k != "$ref" && r in VisitedRefs(f[k]) ensures Resolve(root, r).Some? {
        assert r in RefsUnder(f, f.Keys - {"$ref"});
      }
    }
  }

  ghost predicate AllRewritable(root: Value, items: seq<Value>) {
    forall i :: 0 <= i < |items| ==> Rewritable(root, items[i])
  }

  lemma NotAllRewritable(root: Value, items: seq<Value>, i: nat)
    requires i < |items| && !Rewritable(root, items[i])
    ensures !AllRewritable(root, items)
  {}

  lemma ArrayRefs(root: Value, node: Value)
    requires node.Array?
    ensures VisitedRefs(node) == RefsUpTo(node.items, |node.items|)
    ensures Rewritable(root, node) <==> AllRewritable(root, node.items)
  {
    forall r ensures r in VisitedRefs(node) <==> r in RefsUpTo(node.items, |node.items|) {
      RefsUpToHave(node.items, |node.items|, r);
    }
  }

  /** Collect every schema `node` references and respell the references that must move. */
  method RewriteRefs(root: Value, node: Value, pending: seq<Demand>)
    returns (ok: bool, rewritten: Value, queued: seq<Demand>)
    ensures ok <==> Rewritable(root, node)
    ensures ok ==> rewritten == Rewrite(node)
    ensures ok ==> Queued(root, pending, VisitedRefs(node), queued)
    decreases node, 2
  {
    if node.Object? {
      ok, rewritten, queued := RewriteObject(root, node, pending);
    } else if node.Array? {
      ok, rewritten, queued := RewriteArray(root, node, pending);
    } else {
      ok, rewritten, queued := true, node, pending;
    }
  }

  /** First the node's own reference, then everything below. */
  method RewriteObject(root: Value, node: Value, pending: seq<Demand>)
    returns (ok: bool, rewritten: Value, queued: seq<Demand>)
    requires node.Object?
    ensures ok <==> Rewritable(root, node)
    ensures ok ==> rewritten == Rewrite(node)
    ensures ok ==> Queued(root, pending, VisitedRefs(node), queued)
    decreases node, 1
  {
    var f, g := node.fields, map[];
    ok, g, queued := RewriteOwnRef(root, f, pending);
    if ok {
      ghost var mid := queued;
      ok, g, queued := RewriteFields(root, node, g, queued);
      if ok {
        QueuedTwice(root, pending, OwnRef(node), mid, RefsUnder(f, f.Keys - {"$ref"}), queued);
        FieldsRewritten(node, g);
      }
    }
    ObjectRefs(root, node);
    rewritten := Object(g);
  }

  method RewriteArray(root: Value, node: Value, pending: seq<Demand>)
    returns (ok: bool, rewritten: Value, queued: seq<Demand>)
    requires node.Array?
    ensures ok <==> Rewritable(root, node)
    ensures ok ==> rewritten == Rewrite(node)
    ensures ok ==> Queued(root, pending, VisitedRefs(node), queued)
    decreases node, 1
  {
    var out;
    ok, out, queued := RewriteItems(root, node, pending);
    ArrayRefs(root, node);
    if ok {
      AllItemsRewritten(root, node.items, out);
    }
    rewritten := Array(out);
  }

  /** A node's own reference: what it points at is queued, and it is respelled if it must move. */
  method RewriteOwnRef(root: Value, f: map<string, Value>, pending: seq<Demand>)
    returns (ok: bool, g: map<string, Value>, queued: seq<Demand>)
    ensures ok <==> forall r :: r in OwnRef(Object(f)) ==> Resolve(root, r).Some?
    ensures g.Keys == f.Keys
    ensures forall k :: k in f && k != "$ref" ==> g[k] == f[k]
    ensures ok && "$ref" in f ==> g["$ref"] == Rewrite(Object(f)).fields["$ref"]
    ensures ok ==> Queued(root, pending, OwnRef(Object(f)), queued)
  {
    ok, g, queued := true, f, pending;
    match RefOf(Object(f))
    case None =>
    case Some(r) =>
      var target := ResolvePointer(root, r);
      if target.None? {
        return false, g, queued;
      }
      CarriedTarget(root, r);
      var whole := ResolvePointer(root, CarriedPointer(r));
      queued := queued + [Demand(root, RefName(r), whole.value)];
      if !Kept(r) {
        g := g["$ref" := Str(SCHEMAS + RefName(r))];
      }
  }

  /** The fields beside `$ref`, in any order. */
  method RewriteFields(root: Value, node: Value, start: map<string, Value>, pending: seq<Demand>)
    returns (ok: bool, g: map<string, Value>, queued: seq<Demand>)
    requires node.Object? && start.Keys == node.fields.Keys
    requires forall k :: k in start && k != "$ref" ==> start[k] == node.fields[k]
    ensures ok <==> FieldsRewritable(root, node.fields)
    ensures g.Keys == start.Keys && ("$ref" in start ==> g["$ref"] == start["$ref"])
    ensures ok ==> forall k :: k in start && k != "$ref" ==> g[k] == Rewrite(node.fields[k])
    ensures ok ==> Queued(root, pending, RefsUnder(node.fields, node.fields.Keys - {"$ref"}), queued)
    decreases node, 0
  {
    var f := node.fields;
    g, queued := start, pending;
    var todo, done := f.Keys - {"$ref"}, {};
    while todo != {}
      invariant todo !! done && todo + done == f.Keys - {"$ref"}
      invariant g.Keys == f.Keys && ("$ref" in start ==> g["$ref"] == start["$ref"])
      invariant forall k :: k in done ==> g[k] == Rewrite(f[k]) && Rewritable(root, f[k])
      invariant Queued(root, pending, RefsUnder(f, done), queued)
    {
      var k :| k in todo;
      var good, child, more := RewriteRefs(root, f[k], queued);
      if !good {
        return false, g, queued;
      }
      QueuedField(root, pending, f, done, k, queued, more);
      g, queued, todo, done := g[k := child], more, todo - {k}, done + {k};
    }
    assert done == f.Keys - {"$ref"};
    ok := true;
  }

  ghost predicate RewrittenUpTo(root: Value, items: seq<Value>, out: seq<Value>, n: nat)
    requires n <= |items|
  {
    |out| == n && forall j :: 0 <= j < n ==> out[j] == Rewrite(items[j]) && Rewritable(root, items[j])
  }

  lemma OneMoreRewritten(root: Value, items: seq<Value>, out: seq<Value>, n: nat, child: Value)
    requires n < |items| && RewrittenUpTo(root, items, out, n) && Rewritable(root, items[n]) && child == Rewrite(items[n])
    ensures RewrittenUpTo(root, items, out + [child], n + 1)
  {}

  lemma AllItemsRewritten(root: Value, items: seq<Value>, out: seq<Value>)
    requires RewrittenUpTo(root, items, out, |items|)
    ensures AllRewritable(root, items)
    ensures out == Rewrite(Array(items)).items
  {}

  method RewriteItems(root: Value, node: Value, pending: seq<Demand>)
    returns (ok: bool, out: seq<Value>, queued: seq<Demand>)
    requires node.Array?
    ensures ok <==> AllRewritable(root, node.items)
    ensures ok ==> RewrittenUpTo(root, node.items, out, |node.items|)
    ensures ok ==> Queued(root, pending, RefsUpTo(node.items, |node.items|), queued)
    decreases node, 0
  {
    var items := node.items;
    out, queued := [], pending;
    for i := 0 to |items|
      invariant RewrittenUpTo(root, items, out, i)
      invariant Queued(root, pending, RefsUpTo(items, i), queued)
    {
      var good, child, more := RewriteRefs(root, items[i], queued);
      if !good {
        NotAllRewritable(root, items, i);
        return false, out, queued;
      }
      QueuedItem(root, pending, items, i, queued, more);
      OneMoreRewritten(root, items, out, i, child);
      out, queued := out + [child], more;
    }
    AllItemsRewritten(root, items, out);
    ok := true;
  }

  /** The names a document's references can ask for. */
  ghost function Names(root: Value): set<string> {
    set r | r in AllRefs(root) :: RefName(r)
  }

  /** A demand that can be worked on: wanted, and its references stand in its document. */
  ghost predicate Pending(starts: set<Demand>, root: Value, d: Demand) {
    d.root == root && Wanted(starts, d) && VisitedRefs(d.source) <= AllRefs(root)
  }

  class Converter {
    var table: Table

    constructor ()
      ensures table == map[]
    {
      table := map[];
    }

    /** Add a schema under `name`, then the schemas it points at. A name is taken before its own
        references are carried over, which is what ends recursive schemas. */
    method InsertSchema(root: Value, name: string, schema: Value, ghost starts: set<Demand>) returns (ok: bool)
      requires Pending(starts, root, Demand(root, name, schema))
      requires Grounded(starts, table)
      modifies this
      ensures Grounded(starts, table)
      ensures ok ==> Grows(starts, old(table), table) && Met(table, Demand(root, name, schema))
      ensures old(Met(table, Demand(root, name, schema))) && Rewritable(root, schema) ==> ok && table == old(table)
      ensures !ok ==> Conflict(starts)
      decreases Names(root) + {name} - table.Keys, 0
    {
      var demand := Demand(root, name, schema);
      var good, rewritten, pending := RewriteRefs(root, schema, []);
      if !good {
        assert !Rewritable(demand.root, demand.source);
        return false;
      }
      if name in table {
        ok := table[name] == rewritten;
        if !ok {
          ClashIsConflict(starts, table, demand);
        }
        return;
      }
      table := table[name := rewritten];
      QueueIsPending(starts, demand, pending);
      TakenIsGrounded(starts, old(table), demand);
      assert name in Names(root) + {name} - old(table).Keys && name !in Names(root) - table.Keys;
      ghost var taken := table;
      ok := InsertPending(root, pending, starts);
      if ok {
        NowSettled(starts, table, demand, pending);
        NewNameSettled(starts, old(table), taken, table, name);
      }
    }

    method InsertPending(root: Value, pending: seq<Demand>, ghost starts: set<Demand>) returns (ok: bool)
      requires forall e :: e in pending ==> Pending(starts, root, e) && e.name in Names(root)
      requires Grounded(starts, table)
      modifies this
      ensures Grounded(starts, table)
      ensures ok ==> Grows(starts, old(table), table) && forall e :: e in pending ==> Met(table, e)
      ensures !ok ==> Conflict(starts)
      decreases Names(root) - table.Keys, 1
    {
      for i := 0 to |pending|
        invariant Grounded(starts, table)
        invariant Grows(starts, old(table), table)
        invariant AllMet(table, pending, i)
      {
        ghost var before := table;
        assert pending[i] in pending;
        assert Names(root) + {pending[i].name} == Names(root);
        var carried := InsertSchema(root, pending[i].name, pending[i].source, starts);
        if !carried {
          return false;
        }
        GrowsTransitive(starts, old(table), before, table);
        AllMetStep(before, table, pending, i);
      }
      ok := true;
    }
  }

  lemma ClashIsConflict(starts: set<Demand>, table: Table, demand: Demand)
    requires Grounded(starts, table) && Wanted(starts, demand)
    requires demand.name in table && table[demand.name] != Rewrite(demand.source)
    ensures Conflict(starts)
  {
    var d :| Wanted(starts, d) && d.name == demand.name && Met(table, d);
    assert Rewrite(d.source) != Rewrite(demand.source);
  }

  lemma TakenIsGrounded(starts: set<Demand>, table: Table, demand: Demand)
    requires Grounded(starts, table) && Wanted(starts, demand) && demand.name !in table
    ensures Grounded(starts, table[demand.name := Rewrite(demand.source)])
  {
    var taken := table[demand.name := Rewrite(demand.source)];
    forall k | k in taken ensures exists d :: Wanted(starts, d) && d.name == k && Met(taken, d) {
      if k == demand.name {
        assert Met(taken, demand);
      } else {
        var d :| Wanted(starts, d) && d.name == k && Met(table, d);
        assert Met(taken, d);
      }
    }
  }

  lemma NewNameSettled(starts: set<Demand>, before: Table, taken: Table, after: Table, name: string)
    requires name in taken && taken == before[name := taken[name]] && name !in before
    requires Grows(starts, taken, after) && Settled(starts, after, name)
    ensures Grows(starts, before, after)
  {}

  lemma NowSettled(starts: set<Demand>, table: Table, demand: Demand, pending: seq<Demand>)
    requires Wanted(starts, demand) && Met(table, demand) && Rewritable(demand.root, demand.source)
    requires Queued(demand.root, [], VisitedRefs(demand.source), pending)
    requires forall e :: e in pending ==> Met(table, e)
    ensures Settled(starts, table, demand.name)
  {
    forall e | e in DemandsOf(demand) ensures Met(table, e) {
      assert e in Elements(pending);
    }
    assert SettledBy(table, demand.name, demand);
  }

  lemma QueueIsPending(starts: set<Demand>, demand: Demand, pending: seq<Demand>)
    requires Pending(starts, demand.root, demand) && Rewritable(demand.root, demand.source)
    requires Queued(demand.root, [], VisitedRefs(demand.source), pending)
    ensures forall e :: e in pending ==> Pending(starts, demand.root, e) && e.name in Names(demand.root)
  {
    forall e | e in pending ensures Pending(starts, demand.root, e) && e.name in Names(demand.root) {
      assert e in Elements(pending);
      PendingDemand(starts, demand, e);
    }
  }

  lemma PendingDemand(starts: set<Demand>, demand: Demand, e: Demand)
    requires Pending(starts, demand.root, demand) && Rewritable(demand.root, demand.source)
    requires e in DemandsOf(demand)
    ensures Pending(starts, demand.root, e) && e.name in Names(demand.root)
  {
    var root := demand.root;
    var r :| r in VisitedRefs(demand.source) && e == DemandOf(root, r);
    CarriedTarget(root, r);
    RefsBelow(root, Split(CarriedPointer(r)[2..], '/'));
    VisitedAmongAll(e.source);
    ReachStep(starts, DemandsOf, demand, e);
  }

  // --- What a finished conversion guarantees -----------------------------

  /** Every start is met and every entry settled: what a run of insertions without error leaves. */
  ghost predicate Converted(starts: set<Demand>, table: Table) {
    && (forall s :: s in starts ==> Met(table, s))
    && (forall k :: k in table ==> Settled(starts, table, k))
  }

  /** The answer's document around the carried-over schemas. */
  function EmittedDocument(service: string, version: string, table: Table): Value {
    Object(map[
      "openapi" := Str("3.0.3"),
      "info" := Object(map["title" := Str(service + " message schemas"), "version" := Str(version)]),
      "paths" := Object(map[]),
      "components" := Object(map["schemas" := Object(table)])])
  }

  lemma EmittedSchemas(service: string, version: string, table: Table)
    ensures ComponentSchemas(EmittedDocument(service, version, table)) == Some(Object(table))
  {}

  /** An OpenAPI 3.0.3 document without paths, titled after the service. */
  lemma EmittedHeader(service: string, version: string, table: Table)
    ensures var d := EmittedDocument(service, version, table);
            && Part(d, [Key("openapi")]) == Some(Str("3.0.3")) && Part(d, [Key("paths")]) == Some(Object(map[]))
            && Part(d, [Key("info"), Key("title")]) == Some(Str(service + " message schemas"))
            && Part(d, [Key("info"), Key("version")]) == Some(Str(version))
            && Part(d, [Key("components"), Key("schemas")]) == Some(Object(table))
  {
    var d := EmittedDocument(service, version, table);
    OneKey(d, "openapi");
    OneKey(d, "paths");
    TwoKeys(d, "info", "title");
    TwoKeys(d, "info", "version");
    TwoKeys(d, "components", "schemas");
  }

  /** One reference of a settled schema, respelled, resolves among the emitted schemas. */
  lemma RespelledRefResolves(doc: Value, table: Table, root: Value, origin: string)
    requires ComponentSchemas(doc) == Some(Object(table))
    requires Resolve(root, origin).Some? && Met(table, DemandOf(root, origin))
    ensures Resolve(doc, RewriteRef(origin)).Some?
  {
    var r := RewriteRef(origin);
    if Kept(origin) {
      KeptRefResolves(root, origin);
      KeptRefResolves(doc, r);
      RewriteKeepsPaths(DemandOf(root, origin).source, Split(r[|SCHEMAS|..], '/')[1..]);
    } else {
      HoistedRef(origin);
      KeptRefResolves(doc, r);
    }
  }

  /** Every visited reference of every emitted schema — kept, sub-pointer or hoisted — resolves inside
      the emitted document. */
  lemma EmittedRefsResolve(starts: set<Demand>, table: Table, k: string, r: string, service: string, version: string)
    requires Converted(starts, table)
    requires k in table && r in VisitedRefs(table[k])
    ensures Resolve(EmittedDocument(service, version, table), r).Some?
  {
    EmittedSchemas(service, version, table);
    var d :| Wanted(starts, d) && SettledBy(table, k, d);
    VisitedOfRewritten(d.source);
    var origin :| origin in VisitedRefs(d.source) && r == RewriteRef(origin);
    assert DemandOf(d.root, origin) in DemandsOf(d);
    RespelledRefResolves(EmittedDocument(service, version, table), table, d.root, origin);
  }

  lemma {:induction false} WantedHasStrings(starts: set<Demand>, d: Demand)
    requires forall s :: s in starts ==> RefsAreStrings(s.root) && RefsAreStrings(s.source)
    requires Wanted(starts, d)
    ensures RefsAreStrings(d.source)
  {
    forall u: Demand, w: Demand | RefsAreStrings(u.root) && w in DemandsOf(u) ensures RefsAreStrings(w.root) && RefsAreStrings(w.source) {
      var r :| r in VisitedRefs(u.source) && w == DemandOf(u.root, r);
      if Resolve(u.root, CarriedPointer(r)).Some? {
        StringsBelow(u.root, Split(CarriedPointer(r)[2..], '/'));
      }
    }
    ReachInduction(starts, DemandsOf, (x: Demand) => RefsAreStrings(x.root) && RefsAreStrings(x.source), d);
  }

  /** In documents whose `$ref` keys all hold strings "visited" is no restriction: every reference of the
      emitted document resolves inside it. */
  lemma EmittedDocumentIsClosed(starts: set<Demand>, table: Table, service: string, version: string)
    requires Converted(starts, table)
    requires forall s :: s in starts ==> RefsAreStrings(s.root) && RefsAreStrings(s.source)
    ensures forall k, r :: k in table && r in AllRefs(table[k]) ==> Resolve(EmittedDocument(service, version, table), r).Some?
  {
    forall k | k in table ensures RefsAreStrings(table[k]) {
      var d :| Wanted(starts, d) && SettledBy(table, k, d);
      WantedHasStrings(starts, d);
      RewriteKeepsStrings(d.source);
    }
    forall k, r | k in table && r in AllRefs(table[k])
      ensures Resolve(EmittedDocument(service, version, table), r).Some?
    {
      VisitedAmongAll(table[k]);
      EmittedRefsResolve(starts, table, k, r, service, version);
    }
  }

  /** Two schemas that respell alike ask for the same names. */
  lemma SameNamesWanted(d: Demand, e: Demand, w: Demand) returns (v: Demand)
    requires Rewrite(d.source) == Rewrite(e.source) && w in DemandsOf(d)
    ensures v in DemandsOf(e) && v.name == w.name
  {
    var r :| r in VisitedRefs(d.source) && w == DemandOf(d.root, r);
    VisitedOfRewritten(d.source);
    VisitedOfRewritten(e.source);
    assert RewriteRef(r) in VisitedRefs(Rewrite(e.source));
    var q :| q in VisitedRefs(e.source) && RewriteRef(q) == RewriteRef(r);
    if !Kept(r) { HoistedRef(r); }
    if !Kept(q) { HoistedRef(q); }
    v := DemandOf(e.root, q);
  }

  lemma FunctionalStep(starts: set<Demand>, table: Table, u: Demand, w: Demand)
    requires Converted(starts, table) && Functional(starts)
    requires Wanted(starts, u) && Met(table, u) && w in DemandsOf(u)
    ensures Met(table, w)
  {
    var d :| Wanted(starts, d) && SettledBy(table, u.name, d);
    var v := SameNamesWanted(u, d, w);
    ReachStep(starts, DemandsOf, u, w);
    ReachStep(starts, DemandsOf, d, v);
    SettledDemand(table, u.name, d, v);
    SameSchema(starts, v, w);
  }

  lemma SettledDemand(table: Table, k: string, d: Demand, e: Demand)
    requires SettledBy(table, k, d) && e in DemandsOf(d)
    ensures Met(table, e)
  {}

  lemma SameSchema(starts: set<Demand>, d: Demand, e: Demand)
    requires Functional(starts) && Wanted(starts, d) && Wanted(starts, e) && d.name == e.name
    ensures Rewrite(d.source) == Rewrite(e.source)
  {}

  /** A conversion without error is faithful — every schema wanted under a name, directly or through
      references, is the one standing there — exactly when no name is wanted for two schemas. */
  lemma {:induction false} FaithfulIffFunctional(starts: set<Demand>, table: Table)
    requires Converted(starts, table)
    ensures (forall d :: Wanted(starts, d) ==> Met(table, d)) <==> Functional(starts)
  {
    if Functional(starts) {
      forall u, w | Wanted(starts, u) && Met(table, u) && w in DemandsOf(u) ensures Met(table, w) {
        FunctionalStep(starts, table, u, w);
      }
      forall d | Wanted(starts, d) ensures Met(table, d) {
        ReachInduction(starts, DemandsOf, (x: Demand) => Met(table, x), d);
      }
    }
  }

  // --- Snippets of one document --------------------------------------------

  /** The starts come from snippets that share their component schemas, and every reference that
      can matter lies under `#/components/schemas/`. */
  ghost predicate OneDocument(starts: set<Demand>, schemas: Option<Value>) {
    && (forall s :: s in starts ==> ComponentSchemas(s.root) == schemas)
    && (forall s, r :: s in starts && r in VisitedRefs(s.source) ==> Kept(r))
    && (schemas.Some? ==> forall r :: r in AllRefs(schemas.value) ==> Kept(r))
  }

  ghost predicate OfDocument(schemas: Option<Value>, d: Demand) {
    && ComponentSchemas(d.root) == schemas
    && forall r :: r in VisitedRefs(d.source) ==> Kept(r)
  }

  lemma OfDocumentStep(starts: set<Demand>, schemas: Option<Value>, u: Demand, w: Demand)
    requires OneDocument(starts, schemas) && OfDocument(schemas, u) && w in DemandsOf(u)
    ensures OfDocument(schemas, w)
  {
    var r :| r in VisitedRefs(u.source) && w == DemandOf(u.root, r);
    KeptRefResolves(u.root, r);
    VisitedAmongAll(w.source);
    if schemas.Some? {
      assert AllRefs(w.source) <= AllRefs(schemas.value);
    }
  }

  lemma {:induction false} WantedOfDocument(starts: set<Demand>, schemas: Option<Value>, d: Demand)
    requires OneDocument(starts, schemas) && Wanted(starts, d)
    ensures OfDocument(schemas, d)
  {
    forall u, w | OfDocument(schemas, u) && w in DemandsOf(u) ensures OfDocument(schemas, w) {
      OfDocumentStep(starts, schemas, u, w);
    }
    ReachInduction(starts, DemandsOf, (x: Demand) => OfDocument(schemas, x), d);
  }

  lemma WantedUnchanged(starts: set<Demand>, schemas: Option<Value>, d: Demand)
    requires OneDocument(starts, schemas) && Wanted(starts, d)
    ensures Rewrite(d.source) == d.source
  {
    WantedOfDocument(starts, schemas, d);
    RewriteWithoutHoists(d.source);
  }

  lemma MetStep(starts: set<Demand>, schemas: Option<Value>, table: Table, u: Demand, w: Demand)
    requires Converted(starts, table) && OneDocument(starts, schemas)
    requires Wanted(starts, u) && Met(table, u) && w in DemandsOf(u)
    ensures Met(table, w)
  {
    var d :| Wanted(starts, d) && SettledBy(table, u.name, d);
    WantedUnchanged(starts, schemas, u);
    WantedUnchanged(starts, schemas, d);
    WantedOfDocument(starts, schemas, u);
    WantedOfDocument(starts, schemas, d);
    var r :| r in VisitedRefs(u.source) && w == DemandOf(u.root, r);
    KeptRefResolves(u.root, r);
    KeptRefResolves(d.root, r);
    assert DemandOf(d.root, r) in DemandsOf(d);
  }

  /** For snippets of one document a conversion without error emits exactly the payload schemas and
      the component schemas reachable from them, each equal to its source. */
  lemma {:induction false} OneDocumentIsExact(starts: set<Demand>, schemas: Option<Value>, table: Table)
    requires Converted(starts, table) && OneDocument(starts, schemas)
    ensures forall d :: Wanted(starts, d) ==> d.name in table && table[d.name] == d.source
    ensures forall k :: k in table ==> exists d :: Wanted(starts, d) && d.name == k && table[k] == d.source
  {
    forall u, w | Wanted(starts, u) && Met(table, u) && w in DemandsOf(u) ensures Met(table, w) {
      MetStep(starts, schemas, table, u, w);
    }
    forall d | Wanted(starts, d) ensures d.name in table && table[d.name] == d.source {
      ReachInduction(starts, DemandsOf, (x: Demand) => Met(table, x), d);
      WantedUnchanged(starts, schemas, d);
    }
    forall k | k in table ensures exists d :: Wanted(starts, d) && d.name == k && table[k] == d.source {
      var d :| Wanted(starts, d) && SettledBy(table, k, d);
    }
  }

  /** So among snippets of one document a name that stands for two different schemas is always an
      error: no conversion gets past it. */
  lemma OneDocumentReportsEveryClash(starts: set<Demand>, schemas: Option<Value>, d: Demand, e: Demand)
    requires OneDocument(starts, schemas)
    requires Wanted(starts, d) && Wanted(starts, e) && d.name == e.name && d.source != e.source
    ensures forall table :: !Converted(starts, table)
  {
    forall table | Converted(starts, table) ensures false {
      OneDocumentIsExact(starts, schemas, table);
    }
  }

  /** Without that, a reference can slip through unread: below a `$ref` key that holds no string it is
      neither carried over nor refused. */
  lemma HiddenRefEscapes(root: Value, name: string, r: string, service: string, version: string)
    requires !("#/" <= r)
    ensures var d, table := Demand(root, name, Hidden(r)), map[name := Hidden(r)];
            && Converted({d}, table)
            && r in AllRefs(table[name])
            && Resolve(EmittedDocument(service, version, table), r).None?
  {
    var d, table := Demand(root, name, Hidden(r)), map[name := Hidden(r)];
    HiddenRefs(r);
    RewriteWithoutHoists(Hidden(r));
    ReachStart({d}, DemandsOf, d);
    assert DemandsOf(d) == {};
    assert SettledBy(table, name, d);
  }

  lemma OneWanted(d: Demand, x: Demand)
    requires DemandsOf(d) == {} && Wanted({d}, x)
    ensures x == d
  {
    ReachStaysWithin({d}, DemandsOf, {d}, x);
  }

  /** A schema whose references nobody sees is inserted as it is, and alone. */
  method InsertAlone(d: Demand) returns (ok: bool, converter: Converter)
    requires VisitedRefs(d.source) == {}
    ensures ok && converter.table == map[d.name := d.source]
  {
    converter := new Converter();
    RewriteWithoutHoists(d.source);
    ReachStart({d}, DemandsOf, d);
    forall x | Wanted({d}, x) ensures x == d {
      OneWanted(d, x);
    }
    ok := converter.InsertSchema(d.root, d.name, d.source, {d});
    assert ok ==> converter.table.Keys == {d.name};
  }

  /** The run behind it: a hidden reference, dangling or external, is inserted without error. */
  method InsertHidden(root: Value, name: string, r: string) returns (ok: bool, converter: Converter)
    ensures ok && converter.table == map[name := Hidden(r)] && r in AllRefs(converter.table[name])
  {
    HiddenRefs(r);
    ok, converter := InsertAlone(Demand(root, name, Hidden(r)));
  }

  // --- Where "always an error" stops ------------------------------------------

  lemma PlainSchemaRef(name: string)
    requires '/' !in name && '~' !in name
    ensures Kept(SCHEMAS + name) && RefName(SCHEMAS + name) == name && CarriedPointer(SCHEMAS + name) == SCHEMAS + name
  {
    assert (SCHEMAS + name)[|SCHEMAS|..] == name;
    SplitWithoutSeparator(name, '/');
    UnescapePlain(name);
  }

  function Pointing(name: string): Value {
    Object(map["$ref" := Str(SCHEMAS + name)])
  }

  /** A document whose component `y` is the leaf schema `leaf`. */
  ghost predicate Defines(root: Value, y: string, leaf: Value) {
    && ComponentSchemas(root).Some?
    && Get(ComponentSchemas(root).value, y) == Some(leaf)
    && VisitedRefs(leaf) == {}
  }

  lemma PointingVisits(y: string)
    ensures VisitedRefs(Pointing(y)) == {SCHEMAS + y}
    ensures Rewrite(Pointing(y)) == Pointing(y)
  {
    assert RefOf(Pointing(y)) == Some(SCHEMAS + y);
    var f := Pointing(y).fields;
    assert f.Keys == {"$ref"};
    RewriteWithoutHoists(Pointing(y));
  }

  lemma PointingDemands(root: Value, x: string, y: string, leaf: Value)
    requires '/' !in y && '~' !in y && Defines(root, y, leaf)
    ensures DemandsOf(Demand(root, x, Pointing(y))) == {Demand(root, y, leaf)}
    ensures DemandsOf(Demand(root, y, leaf)) == {}
    ensures Rewritable(root, Pointing(y)) && Rewrite(leaf) == leaf
  {
    PointingVisits(y);
    PlainSchemaRef(y);
    KeptRefResolves(root, SCHEMAS + y);
    RewriteWithoutHoists(leaf);
    assert DemandOf(root, SCHEMAS + y) == Demand(root, y, leaf);
  }

  lemma PointingSettled(starts: set<Demand>, table: Table, root: Value, x: string, y: string, leaf: Value)
    requires '/' !in y && '~' !in y && Defines(root, y, leaf)
    requires Demand(root, x, Pointing(y)) in starts
    ensures Wanted(starts, Demand(root, y, leaf))
    ensures x in table && y in table && table[x] == Pointing(y) && table[y] == leaf ==>
              Settled(starts, table, x) && Settled(starts, table, y)
  {
    var d, e := Demand(root, x, Pointing(y)), Demand(root, y, leaf);
    PointingDemands(root, x, y, leaf);
    PointingVisits(y);
    ReachStart(starts, DemandsOf, d);
    ReachStep(starts, DemandsOf, d, e);
    if x in table && y in table && table[x] == Pointing(y) && table[y] == leaf {
      assert SettledBy(table, x, d) && SettledBy(table, y, e);
    }
  }

  /** Across documents a name that stands for two schemas can pass unreported: both snippets spell X
      alike, as a reference to Y, so the second X is a no-op and its different Y is never looked at.
      The table is one the conversion leaves without error, yet the second document's Y is not in it;
      `InsertBothSilently` is such a run. */
  lemma TwoDocumentsShareSilently(root: Value, other: Value, x: string, y: string, leaf: Value, otherLeaf: Value)
    requires '/' !in y && '~' !in y && x != y && leaf != otherLeaf
    requires Defines(root, y, leaf) && Defines(other, y, otherLeaf)
    ensures var starts := {Demand(root, x, Pointing(y)), Demand(other, x, Pointing(y))};
            var table := map[x := Pointing(y), y := leaf];
            && Converted(starts, table)
            && Wanted(starts, Demand(other, y, otherLeaf))
            && !Met(table, Demand(other, y, otherLeaf))
            && !Functional(starts)
  {
    var d, e := Demand(root, x, Pointing(y)), Demand(other, x, Pointing(y));
    var starts := {d, e};
    var table := map[x := Pointing(y), y := leaf];
    PointingSettled(starts, table, root, x, y, leaf);
    PointingSettled(starts, table, other, x, y, otherLeaf);
    assert Converted(starts, table) by {
      PointingVisits(y);
      assert Met(table, d) && Met(table, e);
    }
    RewriteWithoutHoists(leaf);
    RewriteWithoutHoists(otherLeaf);
    DifferentSchemasWanted(starts, Demand(root, y, leaf), Demand(other, y, otherLeaf));
  }

  lemma DifferentSchemasWanted(starts: set<Demand>, d: Demand, e: Demand)
    requires Wanted(starts, d) && Wanted(starts, e) && d.name == e.name && Rewrite(d.source) != Rewrite(e.source)
    ensures !Functional(starts)
  {}

  lemma MoreStarts(starts: set<Demand>, more: set<Demand>, table: Table)
    requires Grounded(starts, table) && starts <= more
    ensures Grounded(more, table)
  {
    forall k | k in table ensures exists d :: Wanted(more, d) && d.name == k && Met(table, d) {
      var d :| Wanted(starts, d) && d.name == k && Met(table, d);
      var path :| IsPath(starts, DemandsOf, path) && path[|path| - 1] == d;
      assert IsPath(more, DemandsOf, path);
    }
  }

  /** A lone start with one demand that makes none: nothing else is wanted. */
  lemma TwoWanted(d: Demand, e: Demand, x: Demand)
    requires DemandsOf(d) == {e} && DemandsOf(e) == {} && Wanted({d}, x)
    ensures x == d || x == e
  {
    ReachStaysWithin({d}, DemandsOf, {d, e}, x);
  }

  lemma NoConflictOfTwo(d: Demand, e: Demand)
    requires DemandsOf(d) == {e} && DemandsOf(e) == {} && d.name != e.name
    requires Rewritable(d.root, d.source) && VisitedRefs(e.source) == {}
    ensures !Conflict({d})
  {
    forall x | Wanted({d}, x) ensures x == d || x == e {
      TwoWanted(d, e, x);
    }
  }

  lemma TwoConverted(d: Demand, e: Demand, table: Table)
    requires DemandsOf(d) == {e} && DemandsOf(e) == {} && d.name != e.name && Converted({d}, table)
    ensures Met(table, d) && Met(table, e) && table.Keys == {d.name, e.name}
  {
    SecondMet(d, e, table);
    forall k | k in table ensures k in {d.name, e.name} {
      NameOfTwo(d, e, table, k);
    }
  }

  lemma SecondMet(d: Demand, e: Demand, table: Table)
    requires DemandsOf(d) == {e} && DemandsOf(e) == {} && d.name != e.name && Converted({d}, table)
    ensures Met(table, e)
  {
    var origin :| Wanted({d}, origin) && SettledBy(table, d.name, origin);
    TwoWanted(d, e, origin);
    SettledDemand(table, d.name, d, e);
  }

  lemma NameOfTwo(d: Demand, e: Demand, table: Table, k: string)
    requires DemandsOf(d) == {e} && DemandsOf(e) == {} && Converted({d}, table) && k in table
    ensures k in {d.name, e.name}
  {
    var x :| Wanted({d}, x) && SettledBy(table, k, x);
    TwoWanted(d, e, x);
  }

  /** A lone start with one demand that makes none: both are inserted. */
  method InsertTwo(d: Demand, ghost e: Demand) returns (converter: Converter)
    requires DemandsOf(d) == {e} && DemandsOf(e) == {} && d.name != e.name
    requires Rewritable(d.root, d.source) && VisitedRefs(d.source) <= AllRefs(d.root) && VisitedRefs(e.source) == {}
    ensures fresh(converter) && Grounded({d}, converter.table)
    ensures Met(converter.table, d) && Met(converter.table, e) && converter.table.Keys == {d.name, e.name}
  {
    converter := new Converter();
    ReachStart({d}, DemandsOf, d);
    NoConflictOfTwo(d, e);
    var ok := converter.InsertSchema(d.root, d.name, d.source, {d});
    TwoConverted(d, e, converter.table);
  }

  /** A further start that is met already changes nothing: its own references are not looked at. */
  method InsertAlike(converter: Converter, ghost starts: set<Demand>, e: Demand) returns (ok: bool)
    requires Grounded(starts, converter.table) && Met(converter.table, e)
    requires Rewritable(e.root, e.source) && VisitedRefs(e.source) <= AllRefs(e.root)
    modifies converter
    ensures ok && converter.table == old(converter.table)
  {
    ReachStart(starts + {e}, DemandsOf, e);
    MoreStarts(starts, starts + {e}, converter.table);
    ok := converter.InsertSchema(e.root, e.name, e.source, starts + {e});
  }

  /** The run that does it: both payloads are inserted without error, and the second one's Y is lost. */
  method InsertBothSilently(root: Value, other: Value, x: string, y: string, leaf: Value, otherLeaf: Value)
    returns (ok: bool, converter: Converter)
    requires '/' !in y && '~' !in y && x != y && leaf != otherLeaf
    requires Defines(root, y, leaf) && Defines(other, y, otherLeaf)
    requires SCHEMAS + y in AllRefs(root) && SCHEMAS + y in AllRefs(other)
    ensures ok && converter.table == map[x := Pointing(y), y := leaf]
  {
    var d, e := Demand(root, x, Pointing(y)), Demand(other, x, Pointing(y));
    PointingVisits(y);
    PointingDemands(root, x, y, leaf);
    PointingDemands(other, x, y, otherLeaf);
    converter := InsertTwo(d, Demand(root, y, leaf));
    TableOfTwo(converter.table, d, Demand(root, y, leaf));
    ok := InsertAlike(converter, {d}, e);
  }

  lemma TableOfTwo(table: Table, d: Demand, e: Demand)
    requires Met(table, d) && Met(table, e) && table.Keys == {d.name, e.name} && d.name != e.name
    ensures table == map[d.name := Rewrite(d.source), e.name := Rewrite(e.source)]
  {}
}
