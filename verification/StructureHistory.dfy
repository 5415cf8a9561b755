/** "Last changed" per node of a structure tree, over the history of a version line. */
module StructureHistory {
  import opened Json
  import opened Versions

  /** `shown` is what a node serialises to beside its children and annotations; `hidden` what it does
      not serialise. */
  datatype Node = Node(
    key: string, shown: string, hidden: string,
    changedIn: Option<SemVer>, inside: Option<SemVer>, children: seq<Node>)

  datatype Release = Release(version: SemVer, nodes: seq<Node>)

  const SEPARATOR: char := '\U{1F}'

  function PathOf(parent: string, key: string): string {
    parent + [SEPARATOR] + key
  }

  // --- Fingerprints ------------------------------------------------------------------

  type Prints = map<string, string>

  function PrintsOf(node: Node, parent: string): Prints
    decreases node
  {
    var path := PathOf(parent, node.key);
    PrintsOfAll(node.children, path)[path := node.shown]
  }

  function PrintsOfAll(nodes: seq<Node>, parent: string): Prints
    decreases nodes
  {
    if nodes == [] then map[]
    else PrintsOfAll(nodes[..|nodes| - 1], parent) + PrintsOf(nodes[|nodes| - 1], parent)
  }

  lemma PrintsOfOneMore(table: Prints, nodes: seq<Node>, i: nat, parent: string)
    requires i < |nodes|
    ensures (table + PrintsOfAll(nodes[..i], parent)) + PrintsOf(nodes[i], parent) == table + PrintsOfAll(nodes[..i + 1], parent)
  {
    assert nodes[..i + 1][..i] == nodes[..i];
  }

  /** The source's recursion into one table. */
  method Fingerprints(node: Node, parent: string, table: Prints) returns (filled: Prints)
    ensures filled == table + PrintsOf(node, parent)
    decreases node
  {
    var path := PathOf(parent, node.key);
    filled := table;
    for i := 0 to |node.children|
      invariant filled == table + PrintsOfAll(node.children[..i], path)
    {
      PrintsOfOneMore(table, node.children, i, path);
      filled := Fingerprints(node.children[i], path, filled);
    }
    assert node.children[..|node.children|] == node.children;
    filled := filled[path := node.shown];
  }

  method FingerprintsOfAll(nodes: seq<Node>) returns (filled: Prints)
    ensures filled == PrintsOfAll(nodes, "")
  {
    filled := map[];
    for i := 0 to |nodes|
      invariant filled == PrintsOfAll(nodes[..i], "")
    {
      PrintsOfOneMore(map[], nodes, i, "");
      assert map[] + PrintsOfAll(nodes[..i], "") == PrintsOfAll(nodes[..i], "");
      assert map[] + PrintsOfAll(nodes[..i + 1], "") == PrintsOfAll(nodes[..i + 1], "");
      filled := Fingerprints(nodes[i], "", filled);
    }
    assert nodes[..|nodes|] == nodes;
  }

  // --- Since when ----------------------------------------------------------------------

  predicate Has(prints: Prints, path: string, mark: string) {
    path in prints && prints[path] == mark
  }

  ghost function PrintsAt(history: seq<Release>, i: nat): Prints
    requires i < |history|
  {
    PrintsOfAll(history[i].nodes, "")
  }

  /** From release `i` to the newest the path has carried this fingerprint, and not just before. */
  ghost predicate UnbrokenFrom(history: seq<Release>, i: nat, path: string, mark: string)
    requires i < |history|
  {
    && (forall j :: i <= j < |history| ==> Has(PrintsAt(history, j), path, mark))
    && (i > 0 ==> !Has(PrintsAt(history, i - 1), path, mark))
  }

  ghost predicate IsSince(history: seq<Release>, path: string, mark: string, version: SemVer) {
    exists i :: 0 <= i < |history| && history[i].version == version && UnbrokenFrom(history, i, path, mark)
  }

  /** The fingerprints of the newest release; none before the first. */
  ghost function LatestPrints(history: seq<Release>): Prints {
    if history == [] then map[] else PrintsAt(history, |history| - 1)
  }

  /** What the `since` table holds once a prefix of the history is read. */
  ghost predicate SinceRight(history: seq<Release>, since: map<string, SemVer>) {
    forall path :: path in LatestPrints(history) ==>
      path in since && IsSince(history, path, LatestPrints(history)[path], since[path])
  }

  /** The paths that are new or carry other fields than before, with the version that says so. */
  function Changed(current: Prints, previous: Prints, version: SemVer): map<string, SemVer> {
    map path | path in current && !Has(previous, path, current[path]) :: version
  }

  method RecordChanges(current: Prints, previous: Prints, version: SemVer, since: map<string, SemVer>)
    returns (updated: map<string, SemVer>)
    ensures updated == since + Changed(current, previous, version)
  {
    updated := since;
    var todo := current.Keys;
    while todo != {}
      invariant todo <= current.Keys
      invariant updated.Keys == since.Keys + (Changed(current, previous, version).Keys - todo)
      invariant forall path :: path in updated ==>
                  updated[path] == if path in Changed(current, previous, version).Keys - todo then version else since[path]
    {
      var path :| path in todo;
      if !Has(previous, path, current[path]) {
        updated := updated[path := version];
      }
      todo := todo - {path};
    }
  }

  lemma SinceStep(history: seq<Release>, next: Release, since: map<string, SemVer>, updated: map<string, SemVer>)
    requires SinceRight(history, since)
    requires updated == since + Changed(PrintsOfAll(next.nodes, ""), LatestPrints(history), next.version)
    ensures SinceRight(history + [next], updated)
  {
    var longer := history + [next];
    var previous, current := LatestPrints(history), PrintsOfAll(next.nodes, "");
    assert LatestPrints(longer) == current;
    forall path | path in current ensures path in updated && IsSince(longer, path, current[path], updated[path]) {
      if Has(previous, path, current[path]) {
        var i :| 0 <= i < |history| && history[i].version == since[path] && UnbrokenFrom(history, i, path, current[path]);
        UnbrokenLonger(history, next, i, path, current[path]);
        assert longer[i].version == updated[path];
      } else {
        assert UnbrokenFrom(longer, |history|, path, current[path]);
        assert longer[|history|].version == updated[path];
      }
    }
  }

  lemma UnbrokenLonger(history: seq<Release>, next: Release, i: nat, path: string, mark: string)
    requires i < |history| && UnbrokenFrom(history, i, path, mark)
    requires Has(PrintsOfAll(next.nodes, ""), path, mark)
    ensures UnbrokenFrom(history + [next], i, path, mark)
  {
    var longer := history + [next];
    forall j | i <= j < |longer| ensures Has(PrintsAt(longer, j), path, mark) {
      if j < |history| {
        assert PrintsAt(longer, j) == PrintsAt(history, j);
      }
    }
  }

  // --- Writing it into the tree ------------------------------------------------------------

  function Bare(node: Node): Node
    decreases node
  {
    node.(changedIn := None, inside := None, children := BareAll(node.children))
  }

  function BareAll(nodes: seq<Node>): (bare: seq<Node>)
    ensures |bare| == |nodes|
    decreases nodes
  {
    if nodes == [] then [] else BareAll(nodes[..|nodes| - 1]) + [Bare(nodes[|nodes| - 1])]
  }

  /** Two nodes are the same but for the annotations exactly when key and own fields agree and so do the
      children, one by one. */
  lemma {:induction false} SameBare(a: Node, b: Node)
    ensures Bare(a) == Bare(b) <==>
              && a.key == b.key && a.shown == b.shown && a.hidden == b.hidden && |a.children| == |b.children|
              && forall i :: 0 <= i < |a.children| ==> Bare(a.children[i]) == Bare(b.children[i])
  {
    BareFields(a);
    BareFields(b);
    SameBareAll(a.children, b.children);
    if Bare(a) == Bare(b) {
      assert BareAll(a.children) == BareAll(b.children);
    } else if a.key == b.key && a.shown == b.shown && a.hidden == b.hidden {
      assert BareAll(a.children) != BareAll(b.children);
    }
  }

  lemma BareFields(n: Node)
    ensures Bare(n) == Node(n.key, n.shown, n.hidden, None, None, BareAll(n.children))
  {}

  lemma {:induction false} SameBareAll(a: seq<Node>, b: seq<Node>)
    ensures BareAll(a) == BareAll(b) <==> |a| == |b| && forall i :: 0 <= i < |a| ==> Bare(a[i]) == Bare(b[i])
    decreases |a|
  {
    BareAt(a);
    BareAt(b);
    if |a| == |b| && forall i :: 0 <= i < |a| ==> Bare(a[i]) == Bare(b[i]) {
      assert BareAll(a) == BareAll(b);
    }
  }

  lemma {:induction false} BareAt(nodes: seq<Node>)
    ensures forall i :: 0 <= i < |nodes| ==> BareAll(nodes)[i] == Bare(nodes[i])
    decreases |nodes|
  {
    if nodes != [] {
      BareAt(nodes[..|nodes| - 1]);
    }
  }

  /** The `changedIn` of a node and of everything below it. */
  function Changes(node: Node): set<SemVer>
    decreases node
  {
    (match node.changedIn case Some(v) => {v} case None => {}) + ChangesOfAll(node.children)
  }

  function ChangesOfAll(nodes: seq<Node>): set<SemVer>
    decreases nodes
  {
    if nodes == [] then {} else ChangesOfAll(nodes[..|nodes| - 1]) + Changes(nodes[|nodes| - 1])
  }

  ghost predicate IsNewest(newest: Option<SemVer>, changes: set<SemVer>) {
    match newest
    case None => changes == {}
    case Some(v) => v in changes && forall w :: w in changes ==> !Older(v, w)
  }

  /** `inside` is the newest change strictly below, exactly when that is newer than the node's own. */
  ghost predicate InsideRight(node: Node) {
    match node.inside
    case Some(v) => IsNewest(Some(v), ChangesOfAll(node.children)) && OlderOption(node.changedIn, Some(v))
    case None => forall w :: w in ChangesOfAll(node.children) ==> !OlderOption(node.changedIn, Some(w))
  }

  ghost predicate AnnotatedRight(node: Node, parent: string, since: map<string, SemVer>)
    decreases node
  {
    var path := PathOf(parent, node.key);
    && node.changedIn == (if path in since then Some(since[path]) else None)
    && InsideRight(node)
    && forall i | 0 <= i < |node.children| :: AnnotatedRight(node.children[i], path, since)
  }

  lemma NewestOfUnion(a: Option<SemVer>, x: set<SemVer>, b: Option<SemVer>, y: set<SemVer>)
    requires IsNewest(a, x) && IsNewest(b, y)
    ensures IsNewest(Newest(a, b), x + y)
  {}

  /** Set `changedIn` and `inside`; answers the newest version in the subtree. */
  method Apply(node: Node, parent: string, since: map<string, SemVer>) returns (out: Node, newest: Option<SemVer>)
    ensures Bare(out) == Bare(node)
    ensures AnnotatedRight(out, parent, since)
    ensures IsNewest(newest, Changes(out))
    decreases node
  {
    var path := PathOf(parent, node.key);
    var changedIn := if path in since then Some(since[path]) else None;
    var children, below := ApplyAll(node.children, path, since);
    var inside := if OlderOption(changedIn, below) then below else None;
    out := node.(changedIn := changedIn, inside := inside, children := children);
    newest := Newest(changedIn, below);
    NewestOfUnion(changedIn, match changedIn case Some(v) => {v} case None => {}, below, ChangesOfAll(children));
  }

  lemma OneMoreApplied(nodes: seq<Node>, i: nat, out: seq<Node>, node: Node, newest: Option<SemVer>, more: Option<SemVer>)
    requires i < |nodes| && |out| == i && BareAll(out) == BareAll(nodes[..i]) && Bare(node) == Bare(nodes[i])
    requires IsNewest(newest, ChangesOfAll(out)) && IsNewest(more, Changes(node))
    ensures BareAll(out + [node]) == BareAll(nodes[..i + 1])
    ensures IsNewest(Newest(newest, more), ChangesOfAll(out + [node]))
  {
    NewestOfUnion(newest, ChangesOfAll(out), more, Changes(node));
    assert nodes[..i + 1][..i] == nodes[..i] && (out + [node])[..i] == out;
  }

  method ApplyAll(nodes: seq<Node>, path: string, since: map<string, SemVer>) returns (out: seq<Node>, newest: Option<SemVer>)
    ensures BareAll(out) == BareAll(nodes)
    ensures forall i :: 0 <= i < |out| ==> AnnotatedRight(out[i], path, since)
    ensures IsNewest(newest, ChangesOfAll(out))
    decreases nodes
  {
    out, newest := [], None;
    for i := 0 to |nodes|
      invariant |out| == i && BareAll(out) == BareAll(nodes[..i])
      invariant forall j :: 0 <= j < i ==> AnnotatedRight(out[j], path, since)
      invariant IsNewest(newest, ChangesOfAll(out))
    {
      var node, childNewest := Apply(nodes[i], path, since);
      OneMoreApplied(nodes, i, out, node, newest, childNewest);
      newest := Newest(newest, childNewest);
      out := out + [node];
    }
    assert nodes[..|nodes|] == nodes;
  }

  // --- Paths of keys ---------------------------------------------------------------------------

  /** Sibling keys are distinct and free of the separator, at every level. */
  ghost predicate WellKeyed(nodes: seq<Node>)
    decreases nodes
  {
    && (forall i, j | 0 <= i < j < |nodes| :: nodes[i].key != nodes[j].key)
    && (forall i | 0 <= i < |nodes| :: SEPARATOR !in nodes[i].key && WellKeyed(nodes[i].children))
  }

  function Join(parent: string, keys: seq<string>): string
    decreases keys
  {
    if keys == [] then parent else Join(PathOf(parent, keys[0]), keys[1..])
  }

  function Find(nodes: seq<Node>, key: string): (found: Option<Node>)
    ensures found.Some? ==> found.value in nodes && found.value.key == key
    ensures found.None? ==> forall n :: n in nodes ==> n.key != key
  {
    if nodes == [] then None
    else if nodes[0].key == key then Some(nodes[0])
    else Find(nodes[1..], key)
  }

  /** The node a path of keys leads to. */
  function At(nodes: seq<Node>, keys: seq<string>): Option<Node>
    requires keys != []
    decreases keys
  {
    match Find(nodes, keys[0])
    case None => None
    case Some(n) => if |keys| == 1 then Some(n) else At(n.children, keys[1..])
  }

  ghost predicate PlainKeys(keys: seq<string>) {
    keys != [] && forall k :: k in keys ==> SEPARATOR !in k
  }

  /** `p` is `path` or continues below it. */
  predicate Under(p: string, path: string) {
    path <= p && (|p| == |path| || p[|path|] == SEPARATOR)
  }

  lemma UnderTrans(p: string, path: string, key: string)
    requires Under(p, PathOf(path, key))
    ensures Under(p, path)
  {
    assert PathOf(path, key)[|path|] == SEPARATOR;
  }

  lemma {:induction false} PrintsUnder(node: Node, parent: string, p: string)
    requires p in PrintsOf(node, parent)
    ensures Under(p, PathOf(parent, node.key))
    decreases node
  {
    var path := PathOf(parent, node.key);
    if p != path {
      PrintsOfAllUnder(node.children, path, p);
    }
  }

  lemma {:induction false} PrintsOfAllUnder(nodes: seq<Node>, parent: string, p: string)
    requires p in PrintsOfAll(nodes, parent)
    ensures Under(p, parent)
    decreases nodes
  {
    var last := |nodes| - 1;
    if p in PrintsOf(nodes[last], parent) {
      PrintsUnder(nodes[last], parent, p);
      UnderTrans(p, parent, nodes[last].key);
    } else {
      PrintsOfAllUnder(nodes[..last], parent, p);
    }
  }

  lemma {:induction false} JoinUnder(parent: string, keys: seq<string>)
    ensures Under(Join(parent, keys), parent)
    ensures keys != [] ==> |Join(parent, keys)| > |parent|
    decreases keys
  {
    if keys != [] {
      JoinUnder(PathOf(parent, keys[0]), keys[1..]);
      UnderTrans(Join(parent, keys), parent, keys[0]);
    }
  }

  /** A path tells which sibling it goes through. */
  lemma OneSibling(p: string, parent: string, a: string, b: string)
    requires SEPARATOR !in a && SEPARATOR !in b
    requires Under(p, PathOf(parent, a)) && Under(p, PathOf(parent, b))
    ensures a == b
  {
    var at := |parent| + 1;
    assert forall i :: 0 <= i < |a| ==> p[at + i] == PathOf(parent, a)[at + i] == a[i];
    assert forall i :: 0 <= i < |b| ==> p[at + i] == PathOf(parent, b)[at + i] == b[i];
    assert |a| == |b|;
    assert a == b;
  }

  /** Among siblings only the one with the path's key contributes. */
  lemma {:induction false} PrintsThroughSibling(nodes: seq<Node>, parent: string, keys: seq<string>, n: Option<Node>)
    requires PlainKeys(keys)
    requires forall i, j | 0 <= i < j < |nodes| :: nodes[i].key != nodes[j].key
    requires forall i | 0 <= i < |nodes| :: SEPARATOR !in nodes[i].key
    requires n.Some? ==> n.value in nodes && n.value.key == keys[0]
    requires n.None? ==> forall x :: x in nodes ==> x.key != keys[0]
    ensures var p := Join(parent, keys);
            match n
            case None => p !in PrintsOfAll(nodes, parent)
            case Some(x) => (p in PrintsOfAll(nodes, parent) <==> p in PrintsOf(x, parent)) &&
                            (p in PrintsOf(x, parent) ==> PrintsOfAll(nodes, parent)[p] == PrintsOf(x, parent)[p])
    decreases |nodes|
  {
    if nodes != [] {
      var p, last := Join(parent, keys), |nodes| - 1;
      var front := nodes[..last];
      JoinUnder(PathOf(parent, keys[0]), keys[1..]);
      if n == Some(nodes[last]) {
        forall x | x in front ensures x.key != keys[0] {
          var i :| 0 <= i < last && front[i] == x;
        }
        PrintsThroughSibling(front, parent, keys, None);
      } else {
        if p in PrintsOf(nodes[last], parent) {
          PrintsUnder(nodes[last], parent, p);
          OneSibling(p, parent, nodes[last].key, keys[0]);
        }
        if n.Some? {
          var i :| 0 <= i < |nodes| && nodes[i] == n.value;
          assert front[i] == n.value;
        }
        PrintsThroughSibling(front, parent, keys, n);
      }
    }
  }

  /** The fingerprint table answers for paths of keys exactly as the tree does. */
  lemma {:induction false} PrintsAreNodes(nodes: seq<Node>, parent: string, keys: seq<string>)
    requires WellKeyed(nodes) && PlainKeys(keys)
    ensures var p := Join(parent, keys);
            match At(nodes, keys)
            case None => p !in PrintsOfAll(nodes, parent)
            case Some(n) => Has(PrintsOfAll(nodes, parent), p, n.shown)
    decreases keys
  {
    var n := Find(nodes, keys[0]);
    PrintsThroughSibling(nodes, parent, keys, n);
    if n.Some? {
      var path := PathOf(parent, keys[0]);
      if |keys| > 1 {
        JoinUnder(path, keys[1..]);
        assert PlainKeys(keys[1..]);
        PrintsAreNodes(n.value.children, path, keys[1..]);
      } else {
        assert keys[1..] == [];
      }
    }
  }

  // --- What the annotation says -------------------------------------------------------------------

  lemma {:induction false} FindBare(nodes: seq<Node>, key: string)
    ensures Find(BareAll(nodes), key) == match Find(nodes, key) case Some(n) => Some(Bare(n)) case None => None
    decreases |nodes|
  {
    if nodes != [] {
      BareHead(nodes);
      assert BareAll(nodes)[1..] == BareAll(nodes[1..]);
      FindBare(nodes[1..], key);
    }
  }

  lemma {:induction false} BareHead(nodes: seq<Node>)
    requires nodes != []
    ensures BareAll(nodes) == [Bare(nodes[0])] + BareAll(nodes[1..])
    decreases |nodes|
  {
    var last := |nodes| - 1;
    if last > 0 {
      BareHead(nodes[..last]);
      assert nodes[1..][..last - 1] == nodes[..last][1..];
    }
  }

  lemma {:induction false} AtBare(nodes: seq<Node>, keys: seq<string>)
    requires keys != []
    ensures At(BareAll(nodes), keys) == match At(nodes, keys) case Some(n) => Some(Bare(n)) case None => None
    decreases keys
  {
    FindBare(nodes, keys[0]);
    var n := Find(nodes, keys[0]);
    if n.Some? && |keys| > 1 {
      AtBare(n.value.children, keys[1..]);
    }
  }

  lemma {:induction false} AnnotatedAt(nodes: seq<Node>, parent: string, since: map<string, SemVer>, keys: seq<string>)
    requires keys != [] && At(nodes, keys).Some?
    requires forall i :: 0 <= i < |nodes| ==> AnnotatedRight(nodes[i], parent, since)
    ensures var n, p := At(nodes, keys).value, Join(parent, keys);
            InsideRight(n) && n.changedIn == if p in since then Some(since[p]) else None
    decreases keys
  {
    var n := Find(nodes, keys[0]).value;
    var i :| 0 <= i < |nodes| && nodes[i] == n;
    if |keys| > 1 {
      AnnotatedAt(n.children, PathOf(parent, keys[0]), since, keys[1..]);
    } else {
      assert keys[1..] == [];
    }
  }

  /** The node at these keys stood there, with these own fields, in release `j`. */
  predicate SameIn(history: seq<Release>, j: nat, keys: seq<string>, shown: string)
    requires j < |history| && keys != []
  {
    match At(history[j].nodes, keys) case Some(n) => n.shown == shown case None => false
  }

  /** The version since when the keys have led to these own fields. */
  ghost predicate SameSince(history: seq<Release>, keys: seq<string>, shown: string, version: SemVer)
    requires keys != []
  {
    exists i ::
      && 0 <= i < |history|
      && history[i].version == version
      && (forall j :: i <= j < |history| ==> SameIn(history, j, keys, shown))
      && (i > 0 ==> !SameIn(history, i - 1, keys, shown))
  }

  /** `changedIn` is the first version of the longest unbroken suffix of the history in which the
      node's keys lead to the same own fields; `inside` is the newest change below when newer. */
  ghost predicate LastChanged(history: seq<Release>, keys: seq<string>, node: Node)
    requires keys != []
  {
    InsideRight(node) && node.changedIn.Some? && SameSince(history, keys, node.shown, node.changedIn.value)
  }

  lemma HasIsSame(history: seq<Release>, j: nat, keys: seq<string>, shown: string)
    requires j < |history| && WellKeyed(history[j].nodes) && PlainKeys(keys)
    ensures Has(PrintsAt(history, j), Join("", keys), shown) <==> SameIn(history, j, keys, shown)
  {
    PrintsAreNodes(history[j].nodes, "", keys);
  }

  lemma SinceIsSame(history: seq<Release>, keys: seq<string>, shown: string, version: SemVer)
    requires PlainKeys(keys) && forall r :: r in history ==> WellKeyed(r.nodes)
    requires IsSince(history, Join("", keys), shown, version)
    ensures SameSince(history, keys, shown, version)
  {
    var i :| 0 <= i < |history| && history[i].version == version && UnbrokenFrom(history, i, Join("", keys), shown);
    UnbrokenIsSame(history, i, keys, shown);
  }

  lemma UnbrokenIsSame(history: seq<Release>, i: nat, keys: seq<string>, shown: string)
    requires PlainKeys(keys) && forall r :: r in history ==> WellKeyed(r.nodes)
    requires i < |history| && UnbrokenFrom(history, i, Join("", keys), shown)
    ensures forall j :: i <= j < |history| ==> SameIn(history, j, keys, shown)
    ensures i > 0 ==> !SameIn(history, i - 1, keys, shown)
  {
    forall j | 0 <= j < |history| ensures Has(PrintsAt(history, j), Join("", keys), shown) <==> SameIn(history, j, keys, shown) {
      HasIsSame(history, j, keys, shown);
    }
  }

  lemma AnnotatedIsLastChanged(history: seq<Release>, since: map<string, SemVer>, last: seq<Node>, keys: seq<string>)
    requires forall r :: r in history ==> WellKeyed(r.nodes)
    requires history != [] && BareAll(last) == BareAll(history[|history| - 1].nodes)
    requires SinceRight(history, since) && forall i :: 0 <= i < |last| ==> AnnotatedRight(last[i], "", since)
    requires PlainKeys(keys) && At(last, keys).Some?
    ensures LastChanged(history, keys, At(last, keys).value)
  {
    var n, p, newest := At(last, keys).value, Join("", keys), history[|history| - 1].nodes;
    AnnotatedAt(last, "", since, keys);
    AtBare(last, keys);
    AtBare(newest, keys);
    assert Bare(At(newest, keys).value).shown == n.shown;
    PrintsAreNodes(newest, "", keys);
    assert IsSince(history, p, n.shown, since[p]);
    SinceIsSame(history, keys, n.shown, since[p]);
  }

  // --- The whole history ---------------------------------------------------------------------

  lemma AnnotatedThroughout(history: seq<Release>, since: map<string, SemVer>, last: seq<Node>)
    requires history != [] && BareAll(last) == BareAll(history[|history| - 1].nodes)
    requires SinceRight(history, since) && AllAnnotated(last, since)
    ensures (forall r :: r in history ==> WellKeyed(r.nodes)) ==>
              forall keys :: PlainKeys(keys) && At(last, keys).Some? ==> LastChanged(history, keys, At(last, keys).value)
  {
    if forall r :: r in history ==> WellKeyed(r.nodes) {
      forall keys | PlainKeys(keys) && At(last, keys).Some? ensures LastChanged(history, keys, At(last, keys).value) {
        AnnotatedIsLastChanged(history, since, last, keys);
      }
    }
  }

  /** The newest tree with its annotations read from the `since` table of the whole history. */
  ghost predicate Annotated(history: seq<Release>, last: seq<Node>) {
    && history != []
    && BareAll(last) == BareAll(history[|history| - 1].nodes)
    && exists since :: SinceRight(history, since) && AllAnnotated(last, since)
  }

  ghost predicate AllAnnotated(nodes: seq<Node>, since: map<string, SemVer>) {
    forall i :: 0 <= i < |nodes| ==> AnnotatedRight(nodes[i], "", since)
  }

  method Annotate(history: seq<Release>) returns (last: seq<Node>)
    ensures history == [] ==> last == []
    ensures history != [] ==> Annotated(history, last)
    ensures (forall r :: r in history ==> WellKeyed(r.nodes)) ==>
              forall keys :: PlainKeys(keys) && At(last, keys).Some? ==> LastChanged(history, keys, At(last, keys).value)
  {
    var since: map<string, SemVer> := map[];
    var previous: Prints := map[];
    var newest: seq<Node> := [];
    for i := 0 to |history|
      invariant previous == LatestPrints(history[..i])
      invariant i > 0 ==> newest == history[i - 1].nodes
      invariant i == 0 ==> newest == []
      invariant SinceRight(history[..i], since)
    {
      var current := FingerprintsOfAll(history[i].nodes);
      var updated := RecordChanges(current, previous, history[i].version, since);
      SinceStep(history[..i], history[i], since, updated);
      assert history[..i] + [history[i]] == history[..i + 1];
      since, previous, newest := updated, current, history[i].nodes;
    }
    assert history[..|history|] == history;
    var annotated, _ := ApplyAll(newest, "", since);
    last := annotated;
    if history != [] {
      AnnotatedThroughout(history, since, last);
    }
  }

  // --- Why sibling keys must differ ---------------------------------------------------------------

  function Single(key: string, shown: string): Node {
    Node(key, shown, "", None, None, [])
  }

  /** A lone node is well keyed. */
  lemma SingleIsWellKeyed(key: string, shown: string)
    requires SEPARATOR !in key
    ensures WellKeyed([Single(key, shown)])
  {
    assert WellKeyed(Single(key, shown).children);
  }

  lemma TwinsPrint(key: string, a: string, b: string)
    ensures PrintsOfAll(Twins(key, a, b), "") == map[PathOf("", key) := b]
  {
    var nodes, path := Twins(key, a, b), PathOf("", key);
    assert PrintsOfAll([], path) == map[] && PrintsOfAll([], "") == map[];
    assert PrintsOf(Single(key, a), "") == map[path := a] && PrintsOf(Single(key, b), "") == map[path := b];
    assert nodes[..1] == [Single(key, a)] && nodes[..1][..0] == [];
    assert PrintsOfAll(nodes[..1], "") == map[path := a];
  }

  function Twins(key: string, a: string, b: string): seq<Node> {
    [Single(key, a), Single(key, b)]
  }

  lemma BareTwins(key: string, a: string, b: string)
    ensures BareAll(Twins(key, a, b)) == Twins(key, a, b)
  {
    BareHead(Twins(key, a, b));
    assert Twins(key, a, b)[1..] == [Single(key, b)];
    BareHead([Single(key, b)]);
    assert [Single(key, b)][1..] == [] && BareAll([]) == [];
    assert Bare(Single(key, a)) == Single(key, a) && Bare(Single(key, b)) == Single(key, b);
  }

  /** Two siblings with one key share a table entry, and the later one speaks for both: a change of the
      earlier one between two releases stays invisible. */
  lemma TwinsHideAChange(key: string, before: string, after: string, twin: string, v: SemVer, w: SemVer, last: seq<Node>)
    requires before != after && v != w
    requires Annotated([Release(v, Twins(key, before, twin)), Release(w, Twins(key, after, twin))], last)
    ensures var history := [Release(v, Twins(key, before, twin)), Release(w, Twins(key, after, twin))];
            && At(last, [key]).Some?
            && At(last, [key]).value.shown == after
            && At(last, [key]).value.changedIn == Some(v)
            && SameSince(history, [key], after, w)
            && !LastChanged(history, [key], At(last, [key]).value)
  {
    var history := [Release(v, Twins(key, before, twin)), Release(w, Twins(key, after, twin))];
    var since :| SinceRight(history, since) && AllAnnotated(last, since);
    TwinsSince(key, before, after, twin, v, w, since);
    BareTwins(key, after, twin);
    FindBare(last, key);
    assert Find(Twins(key, after, twin), key) == Some(Single(key, after));
    AnnotatedAt(last, "", since, [key]);
    assert Join("", [key]) == PathOf("", key) by {
      assert [key][1..] == [];
    }
    TwinsDiffer(history, key, before, after, twin);
  }

  lemma TwinsSince(key: string, before: string, after: string, twin: string, v: SemVer, w: SemVer, since: map<string, SemVer>)
    requires SinceRight([Release(v, Twins(key, before, twin)), Release(w, Twins(key, after, twin))], since)
    ensures PathOf("", key) in since && since[PathOf("", key)] == v
  {
    var history := [Release(v, Twins(key, before, twin)), Release(w, Twins(key, after, twin))];
    var path := PathOf("", key);
    TwinsPrint(key, before, twin);
    TwinsPrint(key, after, twin);
    assert LatestPrints(history) == map[path := twin];
    var i :| 0 <= i < |history| && history[i].version == since[path] && UnbrokenFrom(history, i, path, twin);
    assert Has(PrintsAt(history, 0), path, twin);
    assert i == 0;
  }

  lemma TwinsDiffer(history: seq<Release>, key: string, before: string, after: string, twin: string)
    requires |history| == 2 && before != after
    requires history[0].nodes == Twins(key, before, twin) && history[1].nodes == Twins(key, after, twin)
    requires history[0].version != history[1].version
    ensures SameSince(history, [key], after, history[1].version) && !SameSince(history, [key], after, history[0].version)
  {
    assert !SameIn(history, 0, [key], after) && SameIn(history, 1, [key], after);
  }
}
