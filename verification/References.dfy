/** Chains of references: where they lead, and under which name they arrive. */
module References {
  import opened Json
  import SchemaRefs

  datatype Hop = Arrived | Nowhere | To(next: Value)

  /** One look at a node: it is no reference, or leads somewhere, or does not resolve. */
  function HopIn(root: Value): Value -> Hop {
    (node: Value) =>
      match RefOf(node)
      case None => Arrived
      case Some(r) => match Resolve(root, r) case Some(t) => To(t) case None => Nowhere
  }

  /** Nodes each leading to the next, the last one no reference. */
  ghost predicate IsChain(hop: Value -> Hop, chain: seq<Value>) {
    && chain != []
    && if |chain| == 1 then hop(chain[0]) == Arrived else hop(chain[0]) == To(chain[1]) && IsChain(hop, chain[1..])
  }

  ghost predicate Leads(hop: Value -> Hop, node: Value, t: Value, hops: nat) {
    exists chain :: IsChain(hop, chain) && |chain| <= hops && chain[0] == node && chain[|chain| - 1] == t
  }

  lemma LeadsOn(hop: Value -> Hop, node: Value, t: Value, hops: nat)
    requires hops > 0 && Leads(hop, node, t, hops)
    ensures match hop(node) case Arrived => t == node case Nowhere => false case To(next) => Leads(hop, next, t, hops - 1)
  {
    var chain :| IsChain(hop, chain) && |chain| <= hops && chain[0] == node && chain[|chain| - 1] == t;
    if hop(node).To? {
      var rest := chain[1..];
      assert IsChain(hop, rest) && rest[|rest| - 1] == t;
    }
  }

  lemma LeadsBack(hop: Value -> Hop, node: Value, t: Value, hops: nat)
    requires hops > 0
    requires match hop(node) case Arrived => t == node case Nowhere => false case To(next) => Leads(hop, next, t, hops - 1)
    ensures Leads(hop, node, t, hops)
  {
    if hop(node).Arrived? {
      assert IsChain(hop, [node]);
    } else {
      var rest :| IsChain(hop, rest) && |rest| <= hops - 1 && rest[0] == hop(node).next && rest[|rest| - 1] == t;
      var chain := [node] + rest;
      assert chain[1..] == rest && IsChain(hop, chain) && chain[|chain| - 1] == t;
    }
  }

  function Walk(hop: Value -> Hop, node: Value, hops: nat): Option<Value>
    decreases hops
  {
    if hops == 0 then None
    else match hop(node)
      case Arrived => Some(node)
      case Nowhere => None
      case To(next) => Walk(hop, next, hops - 1)
  }

  lemma {:induction false} WalkIffLeads(hop: Value -> Hop, node: Value, t: Value, hops: nat)
    ensures Walk(hop, node, hops) == Some(t) <==> Leads(hop, node, t, hops)
    decreases hops
  {
    if hops > 0 {
      if hop(node).To? {
        WalkIffLeads(hop, hop(node).next, t, hops - 1);
      }
      if Leads(hop, node, t, hops) {
        LeadsOn(hop, node, t, hops);
      } else if Walk(hop, node, hops) == Some(t) {
        LeadsBack(hop, node, t, hops);
      }
    }
  }

  // --- The name a chain arrives under ----------------------------------------------------------

  datatype Arrival = Arrival(target: Value, name: Option<string>)

  /** The walk that notes the tag of every reference it follows. */
  function NamedWalk(hop: Value -> Hop, tag: Value -> string, node: Value, name: Option<string>, hops: nat): Option<Arrival>
    decreases hops
  {
    if hops == 0 then None
    else match hop(node)
      case Arrived => Some(Arrival(node, name))
      case Nowhere => None
      case To(next) => NamedWalk(hop, tag, next, Some(tag(node)), hops - 1)
  }

  /** The tag of the last reference of a chain, or the given name when it has none. */
  function ChainName(tag: Value -> string, chain: seq<Value>, name: Option<string>): Option<string> {
    if |chain| < 2 then name else Some(tag(chain[|chain| - 2]))
  }

  ghost predicate LeadsAs(hop: Value -> Hop, tag: Value -> string, node: Value, name: Option<string>, hops: nat, a: Arrival) {
    exists chain :: ChainTo(hop, tag, chain, node, name, hops, a)
  }

  ghost predicate ChainTo(
    hop: Value -> Hop, tag: Value -> string, chain: seq<Value>, node: Value, name: Option<string>, hops: nat, a: Arrival) {
    && IsChain(hop, chain) && |chain| <= hops && chain[0] == node && chain[|chain| - 1] == a.target
    && a.name == ChainName(tag, chain, name)
  }

  lemma LeadsAsOn(hop: Value -> Hop, tag: Value -> string, node: Value, name: Option<string>, hops: nat, a: Arrival)
    requires hops > 0 && LeadsAs(hop, tag, node, name, hops, a)
    ensures match hop(node)
            case Arrived => a == Arrival(node, name)
            case Nowhere => false
            case To(next) => LeadsAs(hop, tag, next, Some(tag(node)), hops - 1, a)
  {
    var chain :| ChainTo(hop, tag, chain, node, name, hops, a);
    if hop(node).To? {
      assert ChainTo(hop, tag, chain[1..], hop(node).next, Some(tag(node)), hops - 1, a);
    }
  }

  lemma LeadsAsBack(hop: Value -> Hop, tag: Value -> string, node: Value, name: Option<string>, hops: nat, a: Arrival)
    requires hops > 0
    requires match hop(node)
             case Arrived => a == Arrival(node, name)
             case Nowhere => false
             case To(next) => LeadsAs(hop, tag, next, Some(tag(node)), hops - 1, a)
    ensures LeadsAs(hop, tag, node, name, hops, a)
  {
    if hop(node).Arrived? {
      assert ChainTo(hop, tag, [node], node, name, hops, a);
    } else {
      var rest :| ChainTo(hop, tag, rest, hop(node).next, Some(tag(node)), hops - 1, a);
      var chain := [node] + rest;
      assert chain[1..] == rest;
      assert ChainTo(hop, tag, chain, node, name, hops, a);
    }
  }

  lemma {:induction false} NamedWalkIff(hop: Value -> Hop, tag: Value -> string, node: Value, name: Option<string>, hops: nat, a: Arrival)
    ensures NamedWalk(hop, tag, node, name, hops) == Some(a) <==> LeadsAs(hop, tag, node, name, hops, a)
    decreases hops
  {
    if hops > 0 {
      if hop(node).To? {
        NamedWalkIff(hop, tag, hop(node).next, Some(tag(node)), hops - 1, a);
      }
      if LeadsAs(hop, tag, node, name, hops, a) {
        LeadsAsOn(hop, tag, node, name, hops, a);
      } else if NamedWalk(hop, tag, node, name, hops) == Some(a) {
        LeadsAsBack(hop, tag, node, name, hops, a);
      }
    }
  }
}
