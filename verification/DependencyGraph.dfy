/** The dependency graph of a scope, narrowed by a filter. */
module DependencyGraph {
  import opened Json
  import opened Versions

  datatype Stability = Ga | Snapshot

  datatype Provided = Provided(apiType: ApiType, version: SemVer, stability: Option<Stability>)
  datatype Producer = Producer(name: string, versions: seq<Provided>)
  datatype Dependency = Dependency(
    client: string, service: string, apiType: ApiType, verb: string, path: string, version: SemVer, stability: Stability)
  datatype Subscription = Subscription(client: string, owner: Option<string>, channel: string)
  datatype Peripheral = Peripheral(system: string, resource: string)

  /** What the scope's report holds; `periphery` is empty when the filter leaves it out. */
  datatype Report = Report(
    producers: seq<Producer>, dependencies: seq<Dependency>, subscriptions: seq<Subscription>, periphery: seq<Peripheral>)

  datatype Filter = Filter(service: Option<string>, apiType: Option<ApiType>)

  datatype Edge = Edge(
    source: string, target: string, apiType: Option<ApiType>, verb: Option<string>, path: Option<string>,
    version: Option<SemVer>, stability: Option<Stability>,
    outdated: bool, superseded: bool, harvested: bool, peripheral: bool)

  datatype NodeKind = IsProducer | IsConsumer | IsBoth | IsMissing | IsResource
  datatype Node = Node(service: string, kind: NodeKind, offers: seq<Provided>, requirements: set<string>)
  datatype Graph = Graph(nodes: set<Node>, edges: seq<Edge>)

  // --- Highest versions ------------------------------------------------------------------

  type Line = (string, ApiType)

  /** The versions offered on each line; of a GA line only the GA ones. */
  ghost function OfferedBy(p: Producer, n: nat, onlyGa: bool): set<(Line, SemVer)>
    requires n <= |p.versions|
  {
    set i | 0 <= i < n && (onlyGa ==> p.versions[i].stability == Some(Ga)) :: ((p.name, p.versions[i].apiType), p.versions[i].version)
  }

  ghost function Offered(producers: seq<Producer>, n: nat, onlyGa: bool): set<(Line, SemVer)>
    requires n <= |producers|
  {
    set i, o | 0 <= i < n && o in OfferedBy(producers[i], |producers[i].versions|, onlyGa) :: o
  }

  /** `table` holds, per line, the newest version among those offered so far. */
  ghost predicate IsHighest(table: map<Line, SemVer>, offered: set<(Line, SemVer)>) {
    && (forall o :: o in offered ==> o.0 in table && !Older(table[o.0], o.1))
    && (forall line :: line in table ==> (line, table[line]) in offered)
  }

  function Raise(table: map<Line, SemVer>, line: Line, v: SemVer): map<Line, SemVer> {
    if line !in table || Older(table[line], v) then table[line := v] else table
  }

  lemma RaiseKeepsHighest(table: map<Line, SemVer>, offered: set<(Line, SemVer)>, line: Line, v: SemVer)
    requires IsHighest(table, offered)
    ensures IsHighest(Raise(table, line, v), offered + {(line, v)})
  {}

  lemma OfferedStep(p: Producer, n: nat, base: set<(Line, SemVer)>, onlyGa: bool)
    requires n < |p.versions|
    ensures base + OfferedBy(p, n + 1, onlyGa) == base + OfferedBy(p, n, onlyGa) +
              (if onlyGa && p.versions[n].stability != Some(Ga) then {} else {((p.name, p.versions[n].apiType), p.versions[n].version)})
  {}

  lemma RaiseStep(p: Producer, n: nat, table: map<Line, SemVer>, base: set<(Line, SemVer)>, onlyGa: bool)
    requires n < |p.versions| && IsHighest(table, base + OfferedBy(p, n, onlyGa))
    ensures var v := p.versions[n];
            IsHighest(if onlyGa && v.stability != Some(Ga) then table else Raise(table, (p.name, v.apiType), v.version),
                      base + OfferedBy(p, n + 1, onlyGa))
  {
    var v := p.versions[n];
    OfferedStep(p, n, base, onlyGa);
    RaiseKeepsHighest(table, base + OfferedBy(p, n, onlyGa), (p.name, v.apiType), v.version);
  }

  /** One producer's versions raise the tables. */
  method RaiseAll(p: Producer, h: map<Line, SemVer>, g: map<Line, SemVer>, ghost offered: set<(Line, SemVer)>, ghost offeredGa: set<(Line, SemVer)>)
    returns (highest: map<Line, SemVer>, highestGa: map<Line, SemVer>)
    requires IsHighest(h, offered) && IsHighest(g, offeredGa)
    ensures IsHighest(highest, offered + OfferedBy(p, |p.versions|, false))
    ensures IsHighest(highestGa, offeredGa + OfferedBy(p, |p.versions|, true))
  {
    highest, highestGa := h, g;
    assert offered + OfferedBy(p, 0, false) == offered && offeredGa + OfferedBy(p, 0, true) == offeredGa;
    for n := 0 to |p.versions|
      invariant IsHighest(highest, offered + OfferedBy(p, n, false))
      invariant IsHighest(highestGa, offeredGa + OfferedBy(p, n, true))
    {
      RaiseStep(p, n, highest, offered, false);
      RaiseStep(p, n, highestGa, offeredGa, true);
      var v := p.versions[n];
      highest := Raise(highest, (p.name, v.apiType), v.version);
      if v.stability == Some(Ga) {
        highestGa := Raise(highestGa, (p.name, v.apiType), v.version);
      }
    }
  }

  /** The line's highest version and highest GA version, per producer and type. */
  method HighestVersions(producers: seq<Producer>) returns (highest: map<Line, SemVer>, highestGa: map<Line, SemVer>)
    ensures IsHighest(highest, Offered(producers, |producers|, false))
    ensures IsHighest(highestGa, Offered(producers, |producers|, true))
  {
    highest, highestGa := map[], map[];
    for i := 0 to |producers|
      invariant IsHighest(highest, Offered(producers, i, false))
      invariant IsHighest(highestGa, Offered(producers, i, true))
    {
      var p := producers[i];
      highest, highestGa := RaiseAll(p, highest, highestGa, Offered(producers, i, false), Offered(producers, i, true));
      assert Offered(producers, i + 1, false) == Offered(producers, i, false) + OfferedBy(p, |p.versions|, false);
      assert Offered(producers, i + 1, true) == Offered(producers, i, true) + OfferedBy(p, |p.versions|, true);
    }
  }

  predicate Beaten(table: map<Line, SemVer>, line: Line, v: SemVer) {
    line in table && Older(v, table[line])
  }

  /** Some offer on the line is newer. */
  ghost predicate NewerOffered(offered: set<(Line, SemVer)>, line: Line, v: SemVer) {
    exists w :: (line, w) in offered && Older(v, w)
  }

  lemma BeatenMeansNewer(table: map<Line, SemVer>, offered: set<(Line, SemVer)>, line: Line, v: SemVer)
    requires IsHighest(table, offered)
    ensures Beaten(table, line, v) <==> NewerOffered(offered, line, v)
  {
    if NewerOffered(offered, line, v) {
      var w :| (line, w) in offered && Older(v, w);
      var o := (line, w);
      assert o in offered && o.0 in table && !Older(table[o.0], o.1);
    }
  }

  // --- Edges ----------------------------------------------------------------------------------

  predicate Asked(filter: Filter, t: ApiType) {
    filter.apiType.None? || filter.apiType.value == t
  }

  function DependencyEdge(d: Dependency, highest: map<Line, SemVer>, ga: map<Line, SemVer>): Edge {
    var line := (d.service, d.apiType);
    Edge(d.client, d.service, Some(d.apiType), Some(d.verb), Some(d.path), Some(d.version), Some(d.stability),
         Beaten(highest, line, d.version), d.stability.Snapshot? && Beaten(ga, line, d.version), false, false)
  }

  function SubscriptionEdge(client: string, owner: string, channel: string): Edge {
    Edge(client, owner, Some(AsyncApi), Some("SUBSCRIBE"), Some(channel), None, None, false, false, true, false)
  }

  function PeripheralEdge(p: Peripheral): Edge {
    Edge(p.system, p.resource, None, None, None, None, None, false, false, false, true)
  }

  /** The edge a dependency stands for: outdated when its line offers something newer, superseded when
      it is a snapshot and the line offers a newer GA. */
  ghost predicate StandsFor(report: Report, d: Dependency, e: Edge) {
    var line, n := (d.service, d.apiType), |report.producers|;
    e == Edge(d.client, d.service, Some(d.apiType), Some(d.verb), Some(d.path), Some(d.version), Some(d.stability),
              NewerOffered(Offered(report.producers, n, false), line, d.version),
              d.stability.Snapshot? && NewerOffered(Offered(report.producers, n, true), line, d.version), false, false)
  }

  /** From the subscriber to the owner of the channel. */
  ghost predicate Subscribes(s: Subscription, e: Edge) {
    s.owner.Some? && e == Edge(s.client, s.owner.value, Some(AsyncApi), Some("SUBSCRIBE"), Some(s.channel), None, None, false, false, true, false)
  }

  /** From the system to the resource outside. */
  ghost predicate Depends(p: Peripheral, e: Edge) {
    e == Edge(p.system, p.resource, None, None, None, None, None, false, false, false, true)
  }

  ghost predicate IsEdge(report: Report, filter: Filter, e: Edge) {
    || (exists d :: d in report.dependencies && (filter.apiType == None || filter.apiType == Some(d.apiType)) && StandsFor(report, d, e))
    || ((filter.apiType == None || filter.apiType == Some(AsyncApi)) && exists s :: s in report.subscriptions && Subscribes(s, e))
    || (exists p :: p in report.periphery && Depends(p, e))
  }

  /** An edge never says `superseded` without `outdated`. */
  predicate Honest(e: Edge) {
    e.superseded ==> e.outdated
  }

  lemma EdgesAreHonest(report: Report, filter: Filter, e: Edge)
    requires IsEdge(report, filter, e)
    ensures Honest(e)
  {
    var n := |report.producers|;
    forall o | o in Offered(report.producers, n, true) ensures o in Offered(report.producers, n, false) {
      var i :| 0 <= i < n && o in OfferedBy(report.producers[i], |report.producers[i].versions|, true);
      assert o in OfferedBy(report.producers[i], |report.producers[i].versions|, false);
    }
  }

  method DependencyEdges(report: Report, filter: Filter) returns (edges: seq<Edge>)
    ensures forall e :: e in edges <==> exists d :: d in report.dependencies && Asked(filter, d.apiType) && StandsFor(report, d, e)
  {
    var highest, ga := HighestVersions(report.producers);
    edges := [];
    for i := 0 to |report.dependencies|
      invariant forall e :: e in edges <==>
                  exists d :: d in report.dependencies[..i] && Asked(filter, d.apiType) && StandsFor(report, d, e)
    {
      var d := report.dependencies[i];
      assert report.dependencies[..i + 1] == report.dependencies[..i] + [d];
      if Asked(filter, d.apiType) {
        BeatenMeansNewer(highest, Offered(report.producers, |report.producers|, false), (d.service, d.apiType), d.version);
        BeatenMeansNewer(ga, Offered(report.producers, |report.producers|, true), (d.service, d.apiType), d.version);
        assert StandsFor(report, d, DependencyEdge(d, highest, ga));
        edges := edges + [DependencyEdge(d, highest, ga)];
      }
    }
    assert report.dependencies[..|report.dependencies|] == report.dependencies;
  }

  method SubscriptionEdges(subscriptions: seq<Subscription>) returns (edges: seq<Edge>)
    ensures forall e :: e in edges <==> exists s :: s in subscriptions && s.owner.Some? && e == SubscriptionEdge(s.client, s.owner.value, s.channel)
  {
    edges := [];
    for i := 0 to |subscriptions|
      invariant forall e :: e in edges <==>
                  exists s :: s in subscriptions[..i] && s.owner.Some? && e == SubscriptionEdge(s.client, s.owner.value, s.channel)
    {
      var sub := subscriptions[i];
      assert subscriptions[..i + 1] == subscriptions[..i] + [sub];
      if sub.owner.Some? {
        edges := edges + [SubscriptionEdge(sub.client, sub.owner.value, sub.channel)];
      }
    }
    assert subscriptions[..|subscriptions|] == subscriptions;
  }

  /** The edges of a report under a type filter: dependencies, harvested subscriptions, periphery. */
  method AllEdges(report: Report, filter: Filter) returns (edges: seq<Edge>)
    ensures forall e :: e in edges <==> IsEdge(report, filter, e)
  {
    edges := DependencyEdges(report, filter);
    if Asked(filter, AsyncApi) {
      var harvested := SubscriptionEdges(report.subscriptions);
      edges := edges + harvested;
    }
    ghost var before := edges;
    for i := 0 to |report.periphery|
      invariant forall e :: e in edges <==> e in before || exists p :: p in report.periphery[..i] && e == PeripheralEdge(p)
    {
      assert report.periphery[..i + 1] == report.periphery[..i] + [report.periphery[i]];
      edges := edges + [PeripheralEdge(report.periphery[i])];
    }
    assert report.periphery[..|report.periphery|] == report.periphery;
  }

  // --- The graph ---------------------------------------------------------------------------------

  /** With a focus only its own edges are shown. */
  predicate InFocus(filter: Filter, e: Edge) {
    filter.service.Some? ==> e.source == filter.service.value || e.target == filter.service.value
  }

  function Ends(edges: seq<Edge>): set<string> {
    (set e | e in edges :: e.source) + (set e | e in edges :: e.target)
  }

  function Targets(edges: seq<Edge>, name: string): set<string> {
    set e | e in edges && e.source == name :: e.target
  }

  function Touching(edges: seq<Edge>, focus: string): seq<Edge> {
    if edges == [] then []
    else
      var last := |edges| - 1;
      Touching(edges[..last], focus) + if edges[last].source == focus || edges[last].target == focus then [edges[last]] else []
  }

  lemma {:induction false} TouchingAre(edges: seq<Edge>, focus: string)
    ensures forall e :: e in Touching(edges, focus) <==> e in edges && (e.source == focus || e.target == focus)
  {
    if edges != [] {
      TouchingAre(edges[..|edges| - 1], focus);
      assert edges == edges[..|edges| - 1] + [edges[|edges| - 1]];
    }
  }

  predicate ProvidesType(report: Report, name: string, t: ApiType) {
    exists p | p in report.producers :: p.name == name && exists v | v in p.versions :: v.apiType == t
  }

  function KindOf(report: Report, edges: seq<Edge>, name: string): NodeKind {
    var producer := exists p | p in report.producers :: p.name == name;
    var consumer := exists e | e in edges :: !e.peripheral && e.source == name;
    if exists p | p in report.periphery :: p.resource == name then IsResource
    else if producer && consumer then IsBoth
    else if producer then IsProducer
    else if consumer then IsConsumer
    else IsMissing
  }

  function NodeNames(g: Graph): set<string> {
    set n | n in g.nodes :: n.service
  }

  /** Edges join nodes, a node requires exactly the targets of its edges, and there is one node a name. */
  ghost predicate Closed(g: Graph) {
    && (forall e :: e in g.edges ==> e.source in NodeNames(g) && e.target in NodeNames(g) && Honest(e))
    && (forall n, t :: n in g.nodes ==> (t in n.requirements <==> exists e :: e in g.edges && e.source == n.service && e.target == t))
    && (forall n, m :: n in g.nodes && m in g.nodes && n.service == m.service ==> n == m)
  }

  /** The asked versions of a producer, in order. */
  function AskedVersions(filter: Filter, versions: seq<Provided>): seq<Provided> {
    if versions == [] then []
    else
      var last := |versions| - 1;
      AskedVersions(filter, versions[..last]) + if Asked(filter, versions[last].apiType) then [versions[last]] else []
  }

  /** What the producers of a name provide under the filter. */
  function ProvidedBy(producers: seq<Producer>, filter: Filter, name: string): seq<Provided> {
    if producers == [] then []
    else
      var last := |producers| - 1;
      ProvidedBy(producers[..last], filter, name) +
      if producers[last].name == name then AskedVersions(filter, producers[last].versions) else []
  }

  lemma {:induction false} AskedVersionsAre(filter: Filter, versions: seq<Provided>, v: Provided)
    ensures v in AskedVersions(filter, versions) <==> v in versions && Asked(filter, v.apiType)
  {
    if versions != [] {
      var last := |versions| - 1;
      AskedVersionsAre(filter, versions[..last], v);
      assert versions == versions[..last] + [versions[last]];
    }
  }

  lemma {:induction false} ProvidedByAre(producers: seq<Producer>, filter: Filter, name: string, v: Provided)
    ensures v in ProvidedBy(producers, filter, name) <==>
              Asked(filter, v.apiType) && exists p :: p in producers && p.name == name && v in p.versions
  {
    if producers != [] {
      var last := |producers| - 1;
      ProvidedByAre(producers[..last], filter, name, v);
      AskedVersionsAre(filter, producers[last].versions, v);
      assert producers == producers[..last] + [producers[last]];
    }
  }

  function Assemble(report: Report, filter: Filter, all: seq<Edge>, names: set<string>, edges: seq<Edge>): Graph {
    Graph(set n | n in names :: NodeFor(report, filter, all, edges, n), edges)
  }

  function NodeFor(report: Report, filter: Filter, all: seq<Edge>, edges: seq<Edge>, n: string): Node {
    Node(n, KindOf(report, all, n), ProvidedBy(report.producers, filter, n), Targets(edges, n))
  }

  lemma AssembledIsClosed(report: Report, filter: Filter, all: seq<Edge>, names: set<string>, edges: seq<Edge>)
    requires Ends(edges) <= names && forall e :: e in edges ==> Honest(e)
    ensures Closed(Assemble(report, filter, all, names, edges)) && NodeNames(Assemble(report, filter, all, names, edges)) == names
  {
    var g := Assemble(report, filter, all, names, edges);
    forall n | n in names ensures n in NodeNames(g) {
      assert NodeFor(report, filter, all, edges, n) in g.nodes;
    }
    forall e | e in edges ensures e.source in names && e.target in names {
      assert e.source in Ends(edges) && e.target in Ends(edges);
    }
  }

  /** The names a type filter leaves: resources, ends of edges, and producers of the type. */
  function NamesKept(report: Report, filter: Filter, edges: seq<Edge>): set<string> {
    var names := (set p | p in report.producers :: p.name) + Ends(edges);
    if filter.apiType.None? then names
    else
      set n | n in names &&
        (|| (exists p | p in report.periphery :: p.resource == n)
         || n in Ends(edges)
         || ProvidesType(report, n, filter.apiType.value))
  }

  /** A producer without an edge still appears if it provides the asked type. */
  function ProducersShown(report: Report, filter: Filter): set<string> {
    set p | p in report.producers && (filter.apiType.None? || ProvidesType(report, p.name, filter.apiType.value)) :: p.name
  }

  lemma NamesAreEndsAndProducers(report: Report, filter: Filter, edges: seq<Edge>)
    requires forall e :: e in edges <==> IsEdge(report, filter, e)
    ensures NamesKept(report, filter, edges) == Ends(edges) + ProducersShown(report, filter)
  {
    forall p | p in report.periphery ensures p.resource in Ends(edges) {
      assert IsEdge(report, filter, PeripheralEdge(p));
      assert PeripheralEdge(p) in edges;
    }
  }

  predicate IsAResource(report: Report, name: string) {
    exists p | p in report.periphery :: p.resource == name
  }

  predicate IsAProducer(report: Report, name: string) {
    exists p | p in report.producers :: p.name == name
  }

  ghost predicate IsAConsumer(report: Report, filter: Filter, name: string) {
    exists e :: IsEdge(report, filter, e) && !e.peripheral && e.source == name
  }

  /** A node's kind and versions say what the report knows of the name. */
  ghost predicate KindRight(report: Report, filter: Filter, n: Node) {
    && (n.kind.IsResource? <==> IsAResource(report, n.service))
    && (!n.kind.IsResource? ==> (n.kind.IsProducer? || n.kind.IsBoth? <==> IsAProducer(report, n.service)))
    && (!n.kind.IsResource? ==> (n.kind.IsConsumer? || n.kind.IsBoth? <==> IsAConsumer(report, filter, n.service)))
    && (forall v :: v in n.offers <==> Provides(report, filter, n.service, v))
  }

  /** A producer of the name offers the version, and the filter asks for its type. */
  ghost predicate Provides(report: Report, filter: Filter, name: string, v: Provided) {
    (filter.apiType == None || filter.apiType == Some(v.apiType)) && exists p :: p in report.producers && p.name == name && v in p.versions
  }

  lemma KindsAreRight(report: Report, filter: Filter, all: seq<Edge>, names: set<string>, edges: seq<Edge>)
    requires forall e :: e in all <==> IsEdge(report, filter, e)
    ensures forall n :: n in Assemble(report, filter, all, names, edges).nodes ==> KindRight(report, filter, n)
  {
    forall n | n in Assemble(report, filter, all, names, edges).nodes ensures KindRight(report, filter, n) {
      assert n == NodeFor(report, filter, all, edges, n.service);
      forall v ensures v in n.offers <==> Provides(report, filter, n.service, v) {
        ProvidedByAre(report.producers, filter, n.service, v);
      }
      assert IsAConsumer(report, filter, n.service) <==> exists e | e in all :: !e.peripheral && e.source == n.service;
    }
  }

  /** The name is an end of an edge, or a producer that provides the asked type. */
  ghost predicate InScope(report: Report, filter: Filter, name: string) {
    || (exists e :: IsEdge(report, filter, e) && (e.source == name || e.target == name))
    || (exists p :: p in report.producers && p.name == name &&
          (filter.apiType == None || exists q, v :: q in report.producers && q.name == name && v in q.versions && filter.apiType == Some(v.apiType)))
  }

  ghost predicate HasNode(g: Graph, name: string) {
    exists n :: n in g.nodes && n.service == name
  }

  lemma EndsAre(edges: seq<Edge>, name: string)
    ensures name in Ends(edges) <==> exists e :: e in edges && (e.source == name || e.target == name)
  {}

  lemma NodesAre(report: Report, filter: Filter, all: seq<Edge>, names: set<string>, edges: seq<Edge>)
    requires NodeNames(Assemble(report, filter, all, names, edges)) == names
    ensures forall name :: HasNode(Assemble(report, filter, all, names, edges), name) <==> name in names
  {
    forall name ensures HasNode(Assemble(report, filter, all, names, edges), name) <==> name in names {
      if name in names {
        assert NodeFor(report, filter, all, edges, name) in Assemble(report, filter, all, names, edges).nodes;
      }
    }
  }

  lemma NeighboursAre(edges: seq<Edge>, focus: string)
    ensures forall name :: name in {focus} + Ends(edges) <==> name == focus || exists e :: e in edges && (e.source == name || e.target == name)
  {
    forall name ensures name in Ends(edges) <==> exists e :: e in edges && (e.source == name || e.target == name) {
      EndsAre(edges, name);
    }
  }

  lemma ScopeIs(report: Report, filter: Filter, all: seq<Edge>)
    requires forall e :: e in all <==> IsEdge(report, filter, e)
    ensures forall name :: name in NamesKept(report, filter, all) <==> InScope(report, filter, name)
  {
    forall name ensures name in NamesKept(report, filter, all) <==> InScope(report, filter, name) {
      InScopeIff(report, filter, all, name);
    }
  }

  lemma InScopeIff(report: Report, filter: Filter, all: seq<Edge>, name: string)
    requires forall e :: e in all <==> IsEdge(report, filter, e)
    ensures name in NamesKept(report, filter, all) <==> InScope(report, filter, name)
  {
    NamesAreEndsAndProducers(report, filter, all);
    EndsAre(all, name);
    if name in ProducersShown(report, filter) {
      var p :| p in report.producers && p.name == name;
    }
    if p :| p in report.producers && p.name == name {
      if filter.apiType.Some? {
        if q, v :| q in report.producers && q.name == name && v in q.versions && filter.apiType == Some(v.apiType) {
          assert ProvidesType(report, name, filter.apiType.value);
        }
      }
    }
  }

  /** The graph is closed under every filter; a focus on a name the scope does not have is refused, and
      with one, every edge touches it and every other node is its neighbour. */
  method GetGraph(report: Report, filter: Filter) returns (graph: Option<Graph>)
    ensures graph.Some? ==> Closed(graph.value) && forall n :: n in graph.value.nodes ==> KindRight(report, filter, n)
    ensures graph.Some? ==> forall e :: e in graph.value.edges <==> IsEdge(report, filter, e) && InFocus(filter, e)
    ensures graph.None? <==> exists focus :: filter.service == Some(focus) && !InScope(report, filter, focus)
    ensures graph.Some? && filter.service.None? ==> forall name :: HasNode(graph.value, name) <==> InScope(report, filter, name)
    ensures graph.Some? && filter.service.Some? ==>
              var focus, g := filter.service.value, graph.value;
              && (forall e :: e in g.edges ==> e.source == focus || e.target == focus)
              && forall name :: HasNode(g, name) <==> name == focus || exists e :: e in g.edges && (e.source == name || e.target == name)
  {
    var all := AllEdges(report, filter);
    forall e | e in all ensures Honest(e) {
      EdgesAreHonest(report, filter, e);
    }
    var names := NamesKept(report, filter, all);
    ScopeIs(report, filter, all);
    var edges := all;
    match filter.service {
      case None =>
      case Some(focus) =>
        if focus !in names {
          return None;
        }
        edges := Touching(all, focus);
        TouchingAre(all, focus);
        names := {focus} + Ends(edges);
    }
    AssembledIsClosed(report, filter, all, names, edges);
    NodesAre(report, filter, all, names, edges);
    if filter.service.Some? {
      NeighboursAre(edges, filter.service.value);
    }
    KindsAreRight(report, filter, all, names, edges);
    graph := Some(Assemble(report, filter, all, names, edges));
  }
}
