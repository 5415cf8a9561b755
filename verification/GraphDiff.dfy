/** The structured difference of two dependency graphs. */
module GraphDiff {
  import opened Versions

  /** A pin: a client's endpoint of a service, at a version. */
  datatype Pin = Pin(
    client: string, service: string, apiType: ApiType, path: string, normalizedPath: string, verb: string, version: SemVer)

  datatype Key = Key(client: string, service: string, apiType: ApiType, normalizedPath: string, verb: string)

  datatype PinChange = PinChange(
    client: string, service: string, apiType: ApiType, path: string, verb: string, was: SemVer, now: SemVer)

  datatype Periphery = Periphery(system: string, resource: string)

  datatype Diff = Diff(
    servicesAdded: set<string>, servicesRemoved: set<string>,
    added: seq<Pin>, removed: seq<Pin>, changed: seq<PinChange>,
    peripheryAdded: seq<Periphery>, peripheryRemoved: seq<Periphery>)

  type Pins = map<Key, Pin>

  function KeyOf(p: Pin): Key {
    Key(p.client, p.service, p.apiType, p.normalizedPath, p.verb)
  }

  /** Pins by key; of several with one key the last is kept. */
  function ByKey(pins: seq<Pin>): (m: Pins)
    ensures forall k :: k in m ==> KeyOf(m[k]) == k && m[k] in pins
    ensures forall p :: p in pins ==> KeyOf(p) in m
  {
    if pins == [] then map[]
    else
      var last := |pins| - 1;
      ByKey(pins[..last])[KeyOf(pins[last]) := pins[last]]
  }

  ghost predicate LastWithKey(pins: seq<Pin>, k: Key, p: Pin, i: nat) {
    i < |pins| && pins[i] == p && KeyOf(p) == k && forall j :: i < j < |pins| ==> KeyOf(pins[j]) != k
  }

  /** Of several pins with one key the last is kept. */
  lemma {:induction false} ByKeyIs(pins: seq<Pin>, k: Key, p: Pin)
    ensures k in ByKey(pins) && ByKey(pins)[k] == p <==> exists i: nat :: LastWithKey(pins, k, p, i)
    decreases |pins|
  {
    if pins != [] {
      var last := |pins| - 1;
      ByKeyIs(pins[..last], k, p);
      LastKeyStep(pins, k, p);
      ByKeyStep(pins, k);
    }
  }

  lemma ByKeyStep(pins: seq<Pin>, k: Key)
    requires pins != []
    ensures var last := |pins| - 1;
            if KeyOf(pins[last]) == k then k in ByKey(pins) && ByKey(pins)[k] == pins[last]
            else (k in ByKey(pins) <==> k in ByKey(pins[..last])) && (k in ByKey(pins) ==> ByKey(pins)[k] == ByKey(pins[..last])[k])
  {}

  lemma LastKeyStep(pins: seq<Pin>, k: Key, p: Pin)
    requires pins != []
    ensures var last := |pins| - 1;
            (exists i: nat :: LastWithKey(pins, k, p, i)) <==>
              if KeyOf(pins[last]) == k then pins[last] == p else exists i: nat :: LastWithKey(pins[..last], k, p, i)
  {
    var last := |pins| - 1;
    var front := pins[..last];
    if KeyOf(pins[last]) == k {
      assert LastWithKey(pins, k, pins[last], last);
    } else {
      if i: nat :| LastWithKey(front, k, p, i) {
        assert LastWithKey(pins, k, p, i);
      }
      if i: nat :| LastWithKey(pins, k, p, i) {
        assert LastWithKey(front, k, p, i);
      }
    }
  }

  /** A pin's key: everything but its version and the spelling of its path. */
  lemma KeyOfIs(p: Pin, q: Pin)
    ensures KeyOf(p) == KeyOf(q) <==>
              p.client == q.client && p.service == q.service && p.apiType == q.apiType && p.normalizedPath == q.normalizedPath && p.verb == q.verb
  {}

  function ChangeOf(l: Pin, r: Pin): PinChange {
    PinChange(r.client, r.service, r.apiType, r.path, r.verb, l.version, r.version)
  }

  function Services(pins: Pins): set<string> {
    set k | k in pins :: pins[k].service
  }

  ghost function Elements<T>(s: seq<T>): set<T> {
    set x | x in s
  }

  ghost predicate NoRepeats<T>(s: seq<T>) {
    forall i, j :: 0 <= i < j < |s| ==> s[i] != s[j]
  }

  ghost function AddedKeys(l: Pins, r: Pins): set<Key> {
    r.Keys - l.Keys
  }

  ghost function ChangedKeys(l: Pins, r: Pins): set<Key> {
    set k | k in l && k in r && l[k].version != r[k].version
  }

  ghost function PinsAt(pins: Pins, keys: set<Key>): set<Pin>
    requires keys <= pins.Keys
  {
    set k | k in keys :: pins[k]
  }

  ghost function ChangesAt(l: Pins, r: Pins, keys: set<Key>): set<PinChange>
    requires keys <= l.Keys && keys <= r.Keys
  {
    set k | k in keys :: ChangeOf(l[k], r[k])
  }

  /** No two of these keys show as the same change. */
  ghost predicate TellApart(l: Pins, r: Pins, keys: set<Key>)
    requires keys <= l.Keys && keys <= r.Keys
  {
    forall k, h :: k in keys && h in keys && ChangeOf(l[k], r[k]) == ChangeOf(l[h], r[h]) ==> k == h
  }

  /** What a diff of two selections holds. */
  ghost predicate IsDiff(l: Pins, r: Pins, d: Diff) {
    && Elements(d.added) == PinsAt(r, AddedKeys(l, r)) && NoRepeats(d.added)
    && Elements(d.removed) == PinsAt(l, AddedKeys(r, l)) && NoRepeats(d.removed)
    && Elements(d.changed) == ChangesAt(l, r, ChangedKeys(l, r)) && (TellApart(l, r, ChangedKeys(l, r)) ==> NoRepeats(d.changed))
    && (forall name :: name in d.servicesAdded <==> Pinned(r, name) && !Pinned(l, name))
    && (forall name :: name in d.servicesRemoved <==> Pinned(l, name) && !Pinned(r, name))
  }

  /** Some pin is on the service. */
  ghost predicate Pinned(pins: Pins, name: string) {
    exists k :: k in pins && pins[k].service == name
  }

  ghost predicate IsPeripheryDiff(left: seq<Periphery>, right: seq<Periphery>, d: Diff) {
    && Elements(d.peripheryAdded) == Elements(right) - Elements(left)
    && Elements(d.peripheryRemoved) == Elements(left) - Elements(right)
  }

  method OnlyIn(these: seq<Periphery>, those: seq<Periphery>) returns (rest: seq<Periphery>)
    ensures Elements(rest) == Elements(these) - Elements(those)
    ensures NoRepeats(these) ==> NoRepeats(rest)
  {
    rest := [];
    for i := 0 to |these|
      invariant Elements(rest) == Elements(these[..i]) - Elements(those)
      invariant NoRepeats(these) ==> NoRepeats(rest)
    {
      assert Elements(these[..i + 1]) == Elements(these[..i]) + {these[i]};
      if these[i] !in those {
        if NoRepeats(these) {
          assert these[i] !in these[..i];
          assert these[i] !in Elements(rest);
        }
        assert Elements(rest + [these[i]]) == Elements(rest) + {these[i]};
        rest := rest + [these[i]];
      }
    }
    assert these[..|these|] == these;
  }

  /** The pins under some keys, in any order. */
  method Collect(pins: Pins, keys: set<Key>) returns (found: seq<Pin>)
    requires keys <= pins.Keys && forall k :: k in pins ==> KeyOf(pins[k]) == k
    ensures Elements(found) == PinsAt(pins, keys) && NoRepeats(found)
  {
    found := [];
    var todo := keys;
    while todo != {}
      invariant todo <= keys
      invariant Elements(found) == PinsAt(pins, keys - todo) && NoRepeats(found)
    {
      var k :| k in todo;
      assert pins[k] !in Elements(found);
      assert Elements(found + [pins[k]]) == Elements(found) + {pins[k]};
      found := found + [pins[k]];
      assert keys - (todo - {k}) == (keys - todo) + {k};
      todo := todo - {k};
    }
    assert keys - todo == keys;
  }

  method CollectChanges(l: Pins, r: Pins, keys: set<Key>) returns (found: seq<PinChange>)
    requires keys <= l.Keys && keys <= r.Keys
    ensures Elements(found) == ChangesAt(l, r, keys) && (TellApart(l, r, keys) ==> NoRepeats(found))
  {
    found := [];
    var todo := keys;
    while todo != {}
      invariant todo <= keys
      invariant Elements(found) == ChangesAt(l, r, keys - todo) && (TellApart(l, r, keys) ==> NoRepeats(found))
    {
      var k :| k in todo;
      var change := ChangeOf(l[k], r[k]);
      assert TellApart(l, r, keys) ==> change !in Elements(found);
      assert Elements(found + [change]) == Elements(found) + {change};
      found := found + [change];
      assert keys - (todo - {k}) == (keys - todo) + {k};
      todo := todo - {k};
    }
    assert keys - todo == keys;
  }

  method DiffGraphs(left: seq<Pin>, right: seq<Pin>, leftPeriphery: seq<Periphery>, rightPeriphery: seq<Periphery>) returns (d: Diff)
    ensures IsDiff(ByKey(left), ByKey(right), d) && IsPeripheryDiff(leftPeriphery, rightPeriphery, d)
  {
    var l, r := ByKey(left), ByKey(right);
    var peripheryAdded := OnlyIn(rightPeriphery, leftPeriphery);
    var peripheryRemoved := OnlyIn(leftPeriphery, rightPeriphery);
    var added := Collect(r, r.Keys - l.Keys);
    var removed := Collect(l, l.Keys - r.Keys);
    var changed := CollectChanges(l, r, set k | k in l && k in r && l[k].version != r[k].version);
    d := Diff(Services(r) - Services(l), Services(l) - Services(r), added, removed, changed, peripheryAdded, peripheryRemoved);
    ServicesAre(l);
    ServicesAre(r);
  }

  lemma ServicesAre(pins: Pins)
    ensures forall name :: name in Services(pins) <==> Pinned(pins, name)
  {}

  // --- A diff is a patch -------------------------------------------------------------------

  function VersionsOf(pins: Pins): map<Key, SemVer> {
    map k | k in pins :: pins[k].version
  }

  /** The key a change is about, read back from what it carries. */
  function ChangedKey(normalize: (ApiType, string) -> string, c: PinChange): Key {
    Key(c.client, c.service, c.apiType, normalize(c.apiType, c.path), c.verb)
  }

  ghost predicate Normalized(normalize: (ApiType, string) -> string, pins: Pins) {
    forall k :: k in pins ==> KeyOf(pins[k]) == k && pins[k].normalizedPath == normalize(pins[k].apiType, pins[k].path)
  }

  /** What a reader of the diff makes of the left versions: at each key at most one part speaks. */
  ghost predicate Patched(normalize: (ApiType, string) -> string, left: map<Key, SemVer>, d: Diff, k: Key, v: SemVer) {
    || (exists p :: p in d.added && KeyOf(p) == k && p.version == v)
    || (exists c :: c in d.changed && ChangedKey(normalize, c) == k && c.now == v && k in left && left[k] == c.was)
    || (k in left && left[k] == v
        && (forall p :: p in d.removed ==> KeyOf(p) != k)
        && (forall c :: c in d.changed ==> ChangedKey(normalize, c) != k))
  }

  /** Removing the removed pins, moving the changed ones and adding the added ones turns the left
      versions into the right ones, exactly. */
  lemma DiffIsPatch(normalize: (ApiType, string) -> string, l: Pins, r: Pins, d: Diff, k: Key, v: SemVer)
    requires IsDiff(l, r, d) && Normalized(normalize, l) && Normalized(normalize, r)
    ensures Patched(normalize, VersionsOf(l), d, k, v) <==> k in VersionsOf(r) && VersionsOf(r)[k] == v
  {
    AddedAt(l, r, d, k, v);
    RemovedAt(l, r, d, k);
    ChangedAt(normalize, l, r, d, k);
  }

  lemma AddedAt(l: Pins, r: Pins, d: Diff, k: Key, v: SemVer)
    requires IsDiff(l, r, d)
    requires forall h :: h in l ==> KeyOf(l[h]) == h
    requires forall h :: h in r ==> KeyOf(r[h]) == h
    ensures (exists p :: p in d.added && KeyOf(p) == k && p.version == v) <==> k in r && k !in l && r[k].version == v
  {
    PinsByKey(l, r, d);
    if k in r && k !in l {
      assert r[k] in d.added;
    }
  }

  lemma RemovedAt(l: Pins, r: Pins, d: Diff, k: Key)
    requires IsDiff(l, r, d)
    requires forall h :: h in l ==> KeyOf(l[h]) == h
    requires forall h :: h in r ==> KeyOf(r[h]) == h
    ensures (exists p :: p in d.removed && KeyOf(p) == k) <==> k in l && k !in r
  {
    PinsByKey(l, r, d);
    if k in l && k !in r {
      assert l[k] in d.removed;
    }
  }

  lemma ChangedAt(normalize: (ApiType, string) -> string, l: Pins, r: Pins, d: Diff, k: Key)
    requires IsDiff(l, r, d) && Normalized(normalize, r)
    ensures (exists c :: c in d.changed && ChangedKey(normalize, c) == k) <==> k in ChangedKeys(l, r)
    ensures k in ChangedKeys(l, r) ==>
              (exists c :: c in d.changed && ChangedKey(normalize, c) == k && c.was == l[k].version && c.now == r[k].version)
    ensures forall c :: c in d.changed && ChangedKey(normalize, c) == k ==>
              k in ChangedKeys(l, r) && c.was == l[k].version && c.now == r[k].version
  {
    ChangesByKey(normalize, l, r, d);
    if k in ChangedKeys(l, r) {
      assert KeyOf(r[k]) == k;
      assert ChangeOf(l[k], r[k]) in d.changed && ChangedKey(normalize, ChangeOf(l[k], r[k])) == k;
    }
  }

  lemma PinsByKey(l: Pins, r: Pins, d: Diff)
    requires IsDiff(l, r, d)
    requires forall k :: k in l ==> KeyOf(l[k]) == k
    requires forall k :: k in r ==> KeyOf(r[k]) == k
    ensures forall p :: p in d.added ==> KeyOf(p) in r && KeyOf(p) !in l && r[KeyOf(p)] == p
    ensures forall p :: p in d.removed ==> KeyOf(p) in l && KeyOf(p) !in r
    ensures forall k :: k in r && k !in l ==> r[k] in d.added
    ensures forall k :: k in l && k !in r ==> l[k] in d.removed
  {
    forall p | p in d.added ensures KeyOf(p) in r && KeyOf(p) !in l && r[KeyOf(p)] == p { assert p in Elements(d.added); }
    forall p | p in d.removed ensures KeyOf(p) in l && KeyOf(p) !in r { assert p in Elements(d.removed); }
    forall k | k in r && k !in l ensures r[k] in d.added { assert k in AddedKeys(l, r); assert r[k] in Elements(d.added); }
    forall k | k in l && k !in r ensures l[k] in d.removed { assert k in AddedKeys(r, l); assert l[k] in Elements(d.removed); }
  }

  lemma ChangesByKey(normalize: (ApiType, string) -> string, l: Pins, r: Pins, d: Diff)
    requires IsDiff(l, r, d) && Normalized(normalize, r)
    ensures forall c :: c in d.changed ==>
              var k := ChangedKey(normalize, c);
              k in ChangedKeys(l, r) && c == ChangeOf(l[k], r[k])
    ensures forall k :: k in ChangedKeys(l, r) ==> ChangeOf(l[k], r[k]) in d.changed
  {
    forall c | c in d.changed
      ensures var k := ChangedKey(normalize, c); k in ChangedKeys(l, r) && c == ChangeOf(l[k], r[k])
    {
      assert c in Elements(d.changed);
      var k :| k in ChangedKeys(l, r) && c == ChangeOf(l[k], r[k]);
    }
    forall k | k in ChangedKeys(l, r) ensures ChangeOf(l[k], r[k]) in d.changed {
      assert ChangeOf(l[k], r[k]) in Elements(d.changed);
    }
  }

  /** Pins whose normalised path is that of their path never repeat a change. */
  lemma NormalizedTellApart(normalize: (ApiType, string) -> string, l: Pins, r: Pins)
    requires Normalized(normalize, r)
    ensures TellApart(l, r, ChangedKeys(l, r))
  {
    forall k, h | k in ChangedKeys(l, r) && h in ChangedKeys(l, r) && ChangeOf(l[k], r[k]) == ChangeOf(l[h], r[h]) ensures k == h {
      assert KeyOf(r[k]) == k && KeyOf(r[h]) == h;
    }
  }

  /** The three parts speak about different keys. */
  lemma PartsDisjoint(l: Pins, r: Pins)
    ensures AddedKeys(l, r) !! AddedKeys(r, l) && AddedKeys(l, r) !! ChangedKeys(l, r) && AddedKeys(r, l) !! ChangedKeys(l, r)
    ensures AddedKeys(l, r) == {} && AddedKeys(r, l) == {} && ChangedKeys(l, r) == {} <==> VersionsOf(l) == VersionsOf(r)
  {
    if AddedKeys(l, r) == {} && AddedKeys(r, l) == {} && ChangedKeys(l, r) == {} {
      forall k | k in l || k in r ensures k in l && k in r && l[k].version == r[k].version {
        assert k !in AddedKeys(l, r) && k !in AddedKeys(r, l) && k !in ChangedKeys(l, r);
      }
    }
    if VersionsOf(l) == VersionsOf(r) {
      assert l.Keys == VersionsOf(l).Keys == VersionsOf(r).Keys == r.Keys;
      forall k | k in l && k in r ensures l[k].version == r[k].version {
        assert VersionsOf(l)[k] == VersionsOf(r)[k];
      }
    }
  }

  /** Swapping the sides swaps added and removed, and the two versions of every change. */
  lemma SwappedDiff(l: Pins, r: Pins, d: Diff, e: Diff)
    requires IsDiff(l, r, d) && IsDiff(r, l, e)
    ensures Elements(d.added) == Elements(e.removed) && Elements(d.removed) == Elements(e.added)
    ensures d.servicesAdded == e.servicesRemoved && d.servicesRemoved == e.servicesAdded
    ensures forall k :: k in ChangedKeys(l, r) ==>
              ChangeOf(l[k], r[k]) in d.changed && ChangeOf(r[k], l[k]) in e.changed
    ensures ChangedKeys(l, r) == ChangedKeys(r, l)
  {
    assert ChangedKeys(l, r) == ChangedKeys(r, l);
    forall k | k in ChangedKeys(l, r) ensures ChangeOf(l[k], r[k]) in d.changed && ChangeOf(r[k], l[k]) in e.changed {
      assert ChangeOf(l[k], r[k]) in Elements(d.changed);
      assert ChangeOf(r[k], l[k]) in Elements(e.changed);
    }
  }

  /** The periphery patches the same way. */
  lemma PeripheryIsPatch(left: seq<Periphery>, right: seq<Periphery>, d: Diff)
    requires IsPeripheryDiff(left, right, d)
    ensures (Elements(left) - Elements(d.peripheryRemoved)) + Elements(d.peripheryAdded) == Elements(right)
    ensures Elements(d.peripheryRemoved) !! Elements(d.peripheryAdded)
  {}
}
