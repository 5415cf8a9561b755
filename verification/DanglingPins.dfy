/** Marking pins whose version is gone, with two memo tables. */
module DanglingPins {
  import opened Json
  import opened Versions

  datatype Pin = Pin(service: string, apiType: ApiType, version: SemVer, client: string, path: string, dangling: bool)

  datatype VersionKey = VersionKey(service: int, apiType: ApiType, version: SemVer)

  /** The version store; it remembers what it was asked. */
  class Store {
    const services: map<string, int>
    const versions: set<VersionKey>
    var askedServices: seq<string>
    var askedVersions: seq<VersionKey>

    constructor (services: map<string, int>, versions: set<VersionKey>)
      ensures this.services == services && this.versions == versions && askedServices == [] && askedVersions == []
    {
      this.services, this.versions := services, versions;
      askedServices, askedVersions := [], [];
    }

    method FindService(name: string) returns (id: Option<int>)
      modifies this`askedServices
      ensures askedServices == old(askedServices) + [name]
      ensures id == if name in services then Some(services[name]) else None
    {
      askedServices := askedServices + [name];
      id := ServiceId(services, name);
    }

    method HasVersion(key: VersionKey) returns (found: bool)
      modifies this`askedVersions
      ensures askedVersions == old(askedVersions) + [key]
      ensures found <==> key in versions
    {
      askedVersions := askedVersions + [key];
      found := key in versions;
    }
  }

  function ServiceId(services: map<string, int>, name: string): Option<int> {
    if name in services then Some(services[name]) else None
  }

  function KeyOf(services: map<string, int>, pin: Pin): Option<VersionKey> {
    match ServiceId(services, pin.service)
    case Some(id) => Some(VersionKey(id, pin.apiType, pin.version))
    case None => None
  }

  /** The unmemoised answer: the service is unknown, or it does not have the version. */
  predicate IsDangling(services: map<string, int>, versions: set<VersionKey>, pin: Pin) {
    pin.service !in services || VersionKey(services[pin.service], pin.apiType, pin.version) !in versions
  }

  /** The pin with its flag set; every other field as it was. */
  function Marked(services: map<string, int>, versions: set<VersionKey>, pin: Pin): Pin {
    pin.(dangling := IsDangling(services, versions, pin))
  }

  /** The first `n` pins marked, the others as they were. */
  function MarkedUpTo(services: map<string, int>, versions: set<VersionKey>, pins: seq<Pin>, n: nat): (marked: seq<Pin>)
    ensures |marked| == |pins|
  {
    seq(|pins|, j requires 0 <= j < |pins| => if j < n then Marked(services, versions, pins[j]) else pins[j])
  }

  lemma MarkedStep(services: map<string, int>, versions: set<VersionKey>, pins: seq<Pin>, n: nat)
    requires n < |pins|
    ensures MarkedUpTo(services, versions, pins, n + 1) == MarkedUpTo(services, versions, pins, n)[n := Marked(services, versions, pins[n])]
  {}

  ghost predicate NoRepeats<T>(s: seq<T>) {
    forall i, j :: 0 <= i < j < |s| ==> s[i] != s[j]
  }

  /** The memo of services: its keys are exactly what was asked since, each once. */
  ghost predicate ServiceMemo(services: map<string, int>, memo: map<string, Option<int>>, asked: seq<string>) {
    && NoRepeats(asked)
    && (forall name :: name in memo <==> name in asked)
    && (forall name :: name in memo ==> memo[name] == ServiceId(services, name))
  }

  ghost predicate VersionMemo(versions: set<VersionKey>, memo: map<VersionKey, bool>, asked: seq<VersionKey>) {
    && NoRepeats(asked)
    && (forall key :: key in memo <==> key in asked)
    && (forall key :: key in memo ==> (memo[key] <==> key !in versions))
  }

  lemma ServiceMemoStep(services: map<string, int>, memo: map<string, Option<int>>, asked: seq<string>, name: string)
    requires ServiceMemo(services, memo, asked) && name !in memo
    ensures ServiceMemo(services, memo[name := ServiceId(services, name)], asked + [name])
  {}

  lemma VersionMemoStep(versions: set<VersionKey>, memo: map<VersionKey, bool>, asked: seq<VersionKey>, key: VersionKey)
    requires VersionMemo(versions, memo, asked) && key !in memo
    ensures VersionMemo(versions, memo[key := key !in versions], asked + [key])
  {}

  /** A service's id from the memo, else from the store. `since` is where this run's questions begin. */
  method LookUpService(store: Store, memo: map<string, Option<int>>, name: string, ghost since: nat)
    returns (id: Option<int>, filled: map<string, Option<int>>)
    requires since <= |store.askedServices| && ServiceMemo(store.services, memo, store.askedServices[since..])
    modifies store`askedServices
    ensures since <= |store.askedServices| && store.askedServices[..since] == old(store.askedServices[..since])
    ensures ServiceMemo(store.services, filled, store.askedServices[since..])
    ensures id == ServiceId(store.services, name) && filled.Keys == memo.Keys + {name}
  {
    if name in memo {
      return memo[name], memo;
    }
    ServiceMemoStep(store.services, memo, store.askedServices[since..], name);
    id := store.FindService(name);
    assert store.askedServices[since..] == old(store.askedServices[since..]) + [name];
    filled := memo[name := id];
  }

  method LookUpVersion(store: Store, memo: map<VersionKey, bool>, key: VersionKey, ghost since: nat)
    returns (missing: bool, filled: map<VersionKey, bool>)
    requires since <= |store.askedVersions| && VersionMemo(store.versions, memo, store.askedVersions[since..])
    modifies store`askedVersions
    ensures since <= |store.askedVersions| && store.askedVersions[..since] == old(store.askedVersions[..since])
    ensures VersionMemo(store.versions, filled, store.askedVersions[since..])
    ensures missing == (key !in store.versions) && filled.Keys == memo.Keys + {key}
  {
    if key in memo {
      return memo[key], memo;
    }
    VersionMemoStep(store.versions, memo, store.askedVersions[since..], key);
    var found := store.HasVersion(key);
    assert store.askedVersions[since..] == old(store.askedVersions[since..]) + [key];
    missing := !found;
    filled := memo[key := missing];
  }

  ghost function ServicesNamed(pins: seq<Pin>): set<string> {
    set p | p in pins :: p.service
  }

  ghost function VersionsNamed(services: map<string, int>, pins: seq<Pin>): set<VersionKey> {
    set p | p in pins && p.service in services :: VersionKey(services[p.service], p.apiType, p.version)
  }

  ghost function KeysOf(services: map<string, int>, pin: Pin): set<VersionKey> {
    match KeyOf(services, pin) case Some(key) => {key} case None => {}
  }

  lemma NamedStep(services: map<string, int>, pins: seq<Pin>, i: nat)
    requires i < |pins|
    ensures ServicesNamed(pins[..i + 1]) == ServicesNamed(pins[..i]) + {pins[i].service}
    ensures VersionsNamed(services, pins[..i + 1]) == VersionsNamed(services, pins[..i]) + KeysOf(services, pins[i])
  {
    assert pins[..i + 1] == pins[..i] + [pins[i]];
  }

  method MarkOne(store: Store, serviceIds: map<string, Option<int>>, seen: map<VersionKey, bool>, pin: Pin, ghost s0: nat, ghost v0: nat)
    returns (dangling: bool, serviceIds': map<string, Option<int>>, seen': map<VersionKey, bool>)
    requires s0 <= |store.askedServices| && ServiceMemo(store.services, serviceIds, store.askedServices[s0..])
    requires v0 <= |store.askedVersions| && VersionMemo(store.versions, seen, store.askedVersions[v0..])
    modifies store
    ensures s0 <= |store.askedServices| && ServiceMemo(store.services, serviceIds', store.askedServices[s0..])
    ensures v0 <= |store.askedVersions| && VersionMemo(store.versions, seen', store.askedVersions[v0..])
    ensures dangling == IsDangling(store.services, store.versions, pin)
    ensures serviceIds'.Keys == serviceIds.Keys + {pin.service}
    ensures seen'.Keys == seen.Keys + KeysOf(store.services, pin)
  {
    var sid;
    sid, serviceIds' := LookUpService(store, serviceIds, pin.service, s0);
    dangling, seen' := true, seen;
    if sid.Some? {
      dangling, seen' := LookUpVersion(store, seen, VersionKey(sid.value, pin.apiType, pin.version), v0);
    }
  }

  /** Every pin gets the flag of a direct lookup and keeps its other fields; the store is asked exactly
      once per service the pins name, and exactly once per version of a known service. */
  method MarkDangling(store: Store, pins: array<Pin>)
    modifies store, pins
    ensures forall i :: 0 <= i < pins.Length ==>
              pins[i] == old(pins[..])[i].(dangling := IsDangling(store.services, store.versions, old(pins[..])[i]))
    ensures |old(store.askedServices)| <= |store.askedServices| && |old(store.askedVersions)| <= |store.askedVersions|
    ensures var asked := store.askedServices[|old(store.askedServices)|..];
            NoRepeats(asked) && (set name | name in asked) == ServicesNamed(old(pins[..]))
    ensures var asked := store.askedVersions[|old(store.askedVersions)|..];
            NoRepeats(asked) && (set key | key in asked) == VersionsNamed(store.services, old(pins[..]))
  {
    ghost var s0, v0, given := |store.askedServices|, |store.askedVersions|, pins[..];
    var serviceIds: map<string, Option<int>> := map[];
    var seen: map<VersionKey, bool> := map[];
    for i := 0 to pins.Length
      invariant s0 <= |store.askedServices| && v0 <= |store.askedVersions|
      invariant ServiceMemo(store.services, serviceIds, store.askedServices[s0..])
      invariant VersionMemo(store.versions, seen, store.askedVersions[v0..])
      invariant serviceIds.Keys == ServicesNamed(given[..i])
      invariant seen.Keys == VersionsNamed(store.services, given[..i])
      invariant pins[..] == MarkedUpTo(store.services, store.versions, given, i)
    {
      NamedStep(store.services, given, i);
      var pin, dangling := pins[i], true;
      assert pin == pins[..][i] == given[i];
      dangling, serviceIds, seen := MarkOne(store, serviceIds, seen, pin, s0, v0);
      MarkedStep(store.services, store.versions, given, i);
      pins[i] := pin.(dangling := dangling);
    }
    assert given[..pins.Length] == given;
  }
}
