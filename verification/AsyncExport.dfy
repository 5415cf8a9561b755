/** The `format=openapi` answer: the messages a snippet keeps, and their payloads converted. */
module AsyncExport {
  import opened Json
  import opened Reachability
  import opened SchemaRefs
  import opened References
  import opened AsyncConversion

  const MAX_HOPS := 32

  /** A message a snippet keeps, with the key an inline payload is named after. */
  datatype Message = Message(key: Option<string>, node: Value)

  /** Every reference of `v` stands in `root`, and `v` spells its references no worse than `root`. */
  ghost predicate Within(root: Value, v: Value) {
    AllRefs(v) <= AllRefs(root) && (RefsAreStrings(root) ==> RefsAreStrings(v))
  }

  lemma TargetWithin(root: Value, pointer: string)
    ensures match Resolve(root, pointer) case Some(t) => Within(root, t) case None => true
  {
    if "#/" <= pointer {
      RefsBelow(root, Split(pointer[2..], '/'));
      if RefsAreStrings(root) {
        StringsBelow(root, Split(pointer[2..], '/'));
      }
    }
  }

  /** Follow `$ref`s until a node that is none, at most `hops` looks. */
  function Follow(root: Value, node: Value, hops: nat): Option<Value>
    decreases hops
  {
    if hops == 0 then None
    else match RefOf(node)
      case None => Some(node)
      case Some(r) => match Resolve(root, r) case None => None case Some(t) => Follow(root, t, hops - 1)
  }

  lemma {:induction false} FollowWithin(root: Value, node: Value, hops: nat)
    requires Within(root, node)
    ensures match Follow(root, node, hops) case Some(t) => Within(root, t) && RefOf(t).None? case None => true
    decreases hops
  {
    if hops > 0 && RefOf(node).Some? && Resolve(root, RefOf(node).value).Some? {
      var r := RefOf(node).value;
      TargetWithin(root, r);
      FollowWithin(root, Resolve(root, r).value, hops - 1);
    }
  }

  /** The source's bounded walk: a reference cycle is reported instead of looping. */
  method Deref(root: Value, node: Value) returns (target: Option<Value>)
    ensures target == Follow(root, node, MAX_HOPS)
  {
    var current := node;
    for i := 0 to MAX_HOPS
      invariant Follow(root, node, MAX_HOPS) == Follow(root, current, MAX_HOPS - i)
    {
      match RefOf(current) {
        case None => return Some(current);
        case Some(r) =>
          var next := ResolvePointer(root, r);
          if next.None? {
            return None;
          }
          current := next.value;
      }
    }
    target := None;
  }

  lemma {:induction false} FollowIsWalk(root: Value, node: Value, hops: nat)
    ensures Follow(root, node, hops) == Walk(HopIn(root), node, hops)
    decreases hops
  {
    if hops > 0 {
      match HopIn(root)(node)
      case To(next) => FollowIsWalk(root, next, hops - 1);
      case _ =>
    }
  }

  /** Following references finds a node exactly when a chain of at most that many nodes leads to it. */
  lemma FollowIffLeads(root: Value, node: Value, t: Value, hops: nat)
    ensures Follow(root, node, hops) == Some(t) <==> Leads(HopIn(root), node, t, hops)
  {
    FollowIsWalk(root, node, hops);
    WalkIffLeads(HopIn(root), node, t, hops);
  }

  /** References that only lead to each other are refused, however many hops are allowed. */
  lemma {:induction false} CycleIsRefused(root: Value, cycle: set<Value>, node: Value, hops: nat)
    requires node in cycle
    requires forall n :: n in cycle ==> RefOf(n).Some?
    requires forall n :: n in cycle && Resolve(root, RefOf(n).value).Some? ==> Resolve(root, RefOf(n).value).value in cycle
    ensures Follow(root, node, hops) == None
    decreases hops
  {
    if hops > 0 && Resolve(root, RefOf(node).value).Some? {
      CycleIsRefused(root, cycle, Resolve(root, RefOf(node).value).value, hops - 1);
    }
  }

  // --- Kept messages -----------------------------------------------------

  /** A place a message is written: the key known from there, and the node. */
  datatype Slot = Slot(key: Option<string>, raw: Value)

  function RefKey(raw: Value): Option<string> {
    match RefOf(raw) case Some(r) => Some(LastSegment(r)) case None => None
  }

  /** `oneOf` variants, or the message itself. */
  function Variants(message: Value): seq<Value> {
    match GetArray(message, "oneOf") case Some(items) => items case None => [message]
  }

  function OperationMessage(channel: Value, op: string): Option<Value> {
    match Get(channel, op) case Some(operation) => Get(operation, "message") case None => None
  }

  function VariantsAt(channel: Value, op: string): seq<Value> {
    match OperationMessage(channel, op) case Some(message) => Variants(message) case None => []
  }

  function SlotsV2(root: Value): set<Slot> {
    match GetObject(root, "channels")
    case None => {}
    case Some(channels) =>
      set c, s | c in channels && s in ChannelSlots(channels[c]) :: s
  }

  function ChannelSlots(channel: Value): set<Slot> {
    OperationSlotsV2(channel, "publish") + OperationSlotsV2(channel, "subscribe")
  }

  function OperationSlotsV2(channel: Value, op: string): set<Slot> {
    set raw | raw in VariantsAt(channel, op) :: Slot(RefKey(raw), raw)
  }

  /** The slots of one 3.x operation: its own `messages`, else those of its channel. */
  function OperationSlots(root: Value, op: Value): Option<set<Slot>> {
    match GetArray(op, "messages")
    case Some(refs) => Some(set raw | raw in refs :: Slot(RefKey(raw), raw))
    case None =>
      match Get(op, "channel")
      case None => Some({})
      case Some(reference) =>
        match Follow(root, reference, MAX_HOPS)
        case None => None
        case Some(channel) =>
          match GetObject(channel, "messages")
          case None => Some({})
          case Some(messages) =>
            Some(set k | k in messages :: Slot(Some(k), messages[k]))
  }

  function SlotsV3(root: Value): Option<set<Slot>> {
    match GetObject(root, "operations")
    case None => Some({})
    case Some(operations) =>
      if exists n | n in operations :: OperationSlots(root, operations[n]).None? then None
      else Some(set n, s | n in operations && s in OperationSlots(root, operations[n]).value :: s)
  }

  predicate IsV3(root: Value) {
    match GetStr(root, "asyncapi") case Some(v) => "3." <= v case None => false
  }

  function Slots(root: Value): Option<set<Slot>> {
    if IsV3(root) then SlotsV3(root) else Some(SlotsV2(root))
  }

  /** `messageId`, else `name`, when that is a string. */
  function MessageId(node: Value): Option<string> {
    if Get(node, "messageId").Some? then GetStr(node, "messageId") else GetStr(node, "name")
  }

  function MessageAt(root: Value, s: Slot): Option<Message> {
    match Follow(root, s.raw, MAX_HOPS)
    case None => None
    case Some(node) => Some(Message(if IsV3(root) || s.key.Some? then s.key else MessageId(node), node))
  }

  /** The messages of a snippet, or nothing when a reference on the way does not resolve. */
  function KeptMessages(root: Value): Option<set<Message>> {
    match Slots(root)
    case None => None
    case Some(slots) =>
      if exists s | s in slots :: MessageAt(root, s).None? then None
      else Some(set s | s in slots :: MessageAt(root, s).value)
  }

  lemma FieldWithin(root: Value, v: Value, key: string)
    requires Within(root, v)
    ensures match Get(v, key) case Some(w) => Within(root, w) case None => true
  {
    if Get(v, key).Some? {
      assert AllRefs(v.fields[key]) <= AllRefs(v);
    }
  }

  lemma ItemWithin(root: Value, v: Value, i: nat)
    requires v.Array? && i < |v.items| && Within(root, v)
    ensures Within(root, v.items[i])
  {
    assert AllRefs(v.items[i]) <= AllRefs(v);
  }

  lemma VariantsWithin(root: Value, channel: Value, op: string)
    requires Within(root, channel)
    ensures forall raw :: raw in VariantsAt(channel, op) ==> Within(root, raw)
  {
    FieldWithin(root, channel, op);
    if OperationMessage(channel, op).Some? {
      FieldWithin(root, Get(channel, op).value, "message");
      var message := OperationMessage(channel, op).value;
      FieldWithin(root, message, "oneOf");
      forall raw | raw in Variants(message) ensures Within(root, raw) {
        if GetArray(message, "oneOf").Some? {
          var items := message.fields["oneOf"];
          var i :| 0 <= i < |items.items| && raw == items.items[i];
          ItemWithin(root, items, i);
        }
      }
    }
  }

  lemma SlotsV2Within(root: Value, s: Slot)
    requires s in SlotsV2(root)
    ensures Within(root, s.raw)
  {
    var channels := GetObject(root, "channels").value;
    FieldWithin(root, root, "channels");
    var c :| c in channels && s in ChannelSlots(channels[c]);
    FieldWithin(root, Object(channels), c);
    VariantsWithin(root, channels[c], "publish");
    VariantsWithin(root, channels[c], "subscribe");
  }

  lemma OperationSlotsWithin(root: Value, op: Value, s: Slot)
    requires Within(root, op)
    requires OperationSlots(root, op).Some? && s in OperationSlots(root, op).value
    ensures Within(root, s.raw)
  {
    match GetArray(op, "messages")
    case Some(refs) =>
      FieldWithin(root, op, "messages");
      var i :| 0 <= i < |refs| && s.raw == refs[i];
      ItemWithin(root, Array(refs), i);
    case None =>
      FieldWithin(root, op, "channel");
      FollowWithin(root, Get(op, "channel").value, MAX_HOPS);
      var channel := Follow(root, Get(op, "channel").value, MAX_HOPS).value;
      FieldWithin(root, channel, "messages");
      var k :| k in GetObject(channel, "messages").value && s.raw == GetObject(channel, "messages").value[k];
      FieldWithin(root, channel.fields["messages"], k);
  }

  lemma SlotsV3Within(root: Value, s: Slot)
    requires SlotsV3(root).Some? && s in SlotsV3(root).value
    ensures Within(root, s.raw)
  {
    var operations := GetObject(root, "operations").value;
    FieldWithin(root, root, "operations");
    var n :| n in operations && s in OperationSlots(root, operations[n]).value;
    FieldWithin(root, Object(operations), n);
    OperationSlotsWithin(root, operations[n], s);
  }

  lemma MessagesWithin(root: Value, m: Message)
    requires KeptMessages(root).Some? && m in KeptMessages(root).value
    ensures Within(root, m.node)
  {
    var s :| s in Slots(root).value && MessageAt(root, s) == Some(m);
    if IsV3(root) { SlotsV3Within(root, s); } else { SlotsV2Within(root, s); }
    FollowWithin(root, s.raw, MAX_HOPS);
  }

  // --- Payloads ------------------------------------------------------------

  /** A payload written as some other schema language cannot be carried over. */
  predicate ForeignFormat(node: Value) {
    match GetStr(node, "schemaFormat")
    case Some(format) => !("application/vnd.aai.asyncapi" <= format)
    case None => false
  }

  predicate MultiFormat(payload: Value) {
    Get(payload, "schemaFormat").Some? && Get(payload, "schema").Some?
  }

  datatype Payload = Absent | Refused | Carry(name: string, schema: Value)

  /** What a message asks to be carried over, and under which name. */
  function PayloadOf(root: Value, m: Message): Payload {
    if ForeignFormat(m.node) then Refused
    else if Get(m.node, "payload").None? then Absent
    else
      var outer := Get(m.node, "payload").value;
      if MultiFormat(outer) && ForeignFormat(outer) then Refused
      else
        var payload := if MultiFormat(outer) then Get(outer, "schema").value else outer;
        match RefOf(payload)
        case Some(r) =>
          if Kept(r) && '/' !in r[|SCHEMAS|..] then
            match Resolve(root, r)
            case Some(target) => Carry(Unescape(r[|SCHEMAS|..]), target)
            case None => Refused
          else InlinePayload(m, payload)
        case None => InlinePayload(m, payload)
  }

  function InlinePayload(m: Message, payload: Value): Payload {
    match m.key
    case Some(key) => Carry(ComponentName(key) + "Payload", payload)
    case None => Refused
  }

  lemma PayloadWithin(root: Value, m: Message)
    requires Within(root, m.node)
    ensures match PayloadOf(root, m)
            case Carry(_, schema) => VisitedRefs(schema) <= AllRefs(root) && (RefsAreStrings(root) ==> RefsAreStrings(schema))
            case _ => true
  {
    match PayloadOf(root, m)
    case Carry(_, schema) =>
      FieldWithin(root, m.node, "payload");
      var outer := Get(m.node, "payload").value;
      FieldWithin(root, outer, "schema");
      VisitedAmongAll(schema);
      var payload := if MultiFormat(outer) then Get(outer, "schema").value else outer;
      if RefOf(payload).Some? && Kept(RefOf(payload).value) {
        TargetWithin(root, RefOf(payload).value);
      }
    case _ =>
  }

  // --- The whole conversion --------------------------------------------------

  /** Every snippet's messages can be read and every payload can be carried over. */
  ghost predicate Readable(snippets: seq<Value>) {
    forall root :: root in snippets ==>
      && KeptMessages(root).Some?
      && forall m :: m in KeptMessages(root).value ==> !PayloadOf(root, m).Refused?
  }

  /** The schemas the messages of all snippets ask for. */
  ghost function Starts(snippets: seq<Value>): set<Demand> {
    set root, m | root in snippets && KeptMessages(root).Some? && m in KeptMessages(root).value && PayloadOf(root, m).Carry?
      :: Demand(root, PayloadOf(root, m).name, PayloadOf(root, m).schema)
  }

  /** The schemas of the answer, or nothing when the request is refused. An answer is given whenever
      nothing stands in the way, holds only wanted schemas, and all its references resolve. */
  method ToOpenApiSchemas(snippets: seq<Value>, service: string, version: string) returns (answer: Option<Table>)
    ensures answer.Some? ==> Readable(snippets) && Converted(Starts(snippets), answer.value)
    ensures answer.Some? ==> forall k, r :: k in answer.value && r in VisitedRefs(answer.value[k]) ==>
              Resolve(EmittedDocument(service, version, answer.value), r).Some?
    ensures answer.Some? && AllStrings(snippets) ==> forall k, r :: k in answer.value && r in AllRefs(answer.value[k]) ==>
              Resolve(EmittedDocument(service, version, answer.value), r).Some?
    ensures Readable(snippets) && !Conflict(Starts(snippets)) ==> answer.Some?
  {
    ghost var starts := Starts(snippets);
    var converter := new Converter();
    for i := 0 to |snippets|
      invariant fresh(converter)
      invariant Grows(starts, map[], converter.table) && Grounded(starts, converter.table)
      invariant AllSnippets(snippets, i, converter.table)
    {
      var root := snippets[i];
      if KeptMessages(root).None? {
        return None;
      }
      ghost var before := converter.table;
      var ok := AddMessages(converter, snippets, root);
      if !ok {
        return None;
      }
      AllSnippetsStep(snippets, i, before, converter.table);
      GrowsTransitive(starts, map[], before, converter.table);
    }
    answer := Some(converter.table);
    AllStartsMet(snippets, converter.table);
    assert Converted(starts, answer.value);
    EveryEmittedRefResolves(starts, answer.value, service, version);
    ExportIsClosed(snippets, answer.value, service, version);
  }

  /** Every `$ref` key of every snippet holds a string. */
  ghost predicate AllStrings(snippets: seq<Value>) {
    forall root :: root in snippets ==> RefsAreStrings(root)
  }

  lemma StartsHaveStrings(snippets: seq<Value>, s: Demand)
    requires AllStrings(snippets) && s in Starts(snippets)
    ensures RefsAreStrings(s.root) && RefsAreStrings(s.source)
  {
    var root, m :| root in snippets && KeptMessages(root).Some? && m in KeptMessages(root).value &&
      PayloadOf(root, m).Carry? && s == Demand(root, PayloadOf(root, m).name, PayloadOf(root, m).schema);
    MessagesWithin(root, m);
    PayloadWithin(root, m);
  }

  /** The promise of the conversion for snippets whose `$ref` keys hold strings: every reference of the
      output, wherever it stands, resolves inside the output. */
  lemma ExportIsClosed(snippets: seq<Value>, table: Table, service: string, version: string)
    requires Converted(Starts(snippets), table)
    ensures AllStrings(snippets) ==> forall k, r :: k in table && r in AllRefs(table[k]) ==>
              Resolve(EmittedDocument(service, version, table), r).Some?
  {
    if AllStrings(snippets) {
      forall s | s in Starts(snippets) ensures RefsAreStrings(s.root) && RefsAreStrings(s.source) {
        StartsHaveStrings(snippets, s);
      }
      EmittedDocumentIsClosed(Starts(snippets), table, service, version);
    }
  }

  /** Every payload of a snippet stands in the table. */
  ghost predicate AllCarried(root: Value, table: Table) {
    KeptMessages(root).Some? && forall m :: m in KeptMessages(root).value ==> Carried(root, m, table)
  }

  ghost predicate Carried(root: Value, m: Message, table: Table) {
    match PayloadOf(root, m)
    case Absent => true
    case Refused => false
    case Carry(name, schema) => Met(table, Demand(root, name, schema))
  }

  lemma CarriedStays(root: Value, a: Table, b: Table)
    requires AllCarried(root, a) && Extends(a, b)
    ensures AllCarried(root, b)
  {
    forall m | m in KeptMessages(root).value ensures Carried(root, m, b) {
      assert Carried(root, m, a);
    }
  }

  ghost predicate AllSnippets(snippets: seq<Value>, n: nat, table: Table)
    requires n <= |snippets|
  {
    forall i :: 0 <= i < n ==> AllCarried(snippets[i], table)
  }

  lemma AllSnippetsStep(snippets: seq<Value>, n: nat, a: Table, b: Table)
    requires n < |snippets| && AllSnippets(snippets, n, a) && Extends(a, b) && AllCarried(snippets[n], b)
    ensures AllSnippets(snippets, n + 1, b)
  {
    forall i | 0 <= i < n ensures AllCarried(snippets[i], b) {
      CarriedStays(snippets[i], a, b);
    }
  }

  lemma EveryEmittedRefResolves(starts: set<Demand>, table: Table, service: string, version: string)
    requires Converted(starts, table)
    ensures forall k, r :: k in table && r in VisitedRefs(table[k]) ==> Resolve(EmittedDocument(service, version, table), r).Some?
  {
    forall k, r | k in table && r in VisitedRefs(table[k]) ensures Resolve(EmittedDocument(service, version, table), r).Some? {
      EmittedRefsResolve(starts, table, k, r, service, version);
    }
  }

  lemma AllStartsMet(snippets: seq<Value>, table: Table)
    requires AllSnippets(snippets, |snippets|, table)
    ensures Readable(snippets)
    ensures forall s :: s in Starts(snippets) ==> Met(table, s)
  {
    forall s | s in Starts(snippets) ensures Met(table, s) {
      var root, m :| root in snippets && KeptMessages(root).Some? && m in KeptMessages(root).value &&
        PayloadOf(root, m).Carry? && s == Demand(root, PayloadOf(root, m).name, PayloadOf(root, m).schema);
      assert Carried(root, m, table);
    }
    forall root, m | root in snippets && m in KeptMessages(root).value ensures !PayloadOf(root, m).Refused? {
      assert Carried(root, m, table);
    }
  }

  /** The messages of one snippet, in any order. */
  method AddMessages(converter: Converter, ghost snippets: seq<Value>, root: Value) returns (ok: bool)
    requires root in snippets && KeptMessages(root).Some?
    requires Grounded(Starts(snippets), converter.table)
    modifies converter
    ensures Grounded(Starts(snippets), converter.table)
    ensures ok ==> Grows(Starts(snippets), old(converter.table), converter.table) && AllCarried(root, converter.table)
    ensures !ok ==> !Readable(snippets) || Conflict(Starts(snippets))
  {
    ghost var starts := Starts(snippets);
    var todo := KeptMessages(root).value;
    while todo != {}
      invariant todo <= KeptMessages(root).value
      invariant Grounded(starts, converter.table)
      invariant Grows(starts, old(converter.table), converter.table)
      invariant forall m :: m in KeptMessages(root).value - todo ==> Carried(root, m, converter.table)
    {
      var m :| m in todo;
      ghost var before := converter.table;
      ok := AddMessagePayload(converter, snippets, root, m);
      if !ok {
        return;
      }
      GrowsTransitive(starts, old(converter.table), before, converter.table);
      forall n | n in KeptMessages(root).value - todo ensures Carried(root, n, converter.table) {
        assert Carried(root, n, before);
      }
      todo := todo - {m};
    }
    ok := true;
  }

  method AddMessagePayload(converter: Converter, ghost snippets: seq<Value>, root: Value, m: Message) returns (ok: bool)
    requires root in snippets && KeptMessages(root).Some? && m in KeptMessages(root).value
    requires Grounded(Starts(snippets), converter.table)
    modifies converter
    ensures Grounded(Starts(snippets), converter.table)
    ensures ok ==> Grows(Starts(snippets), old(converter.table), converter.table) && Carried(root, m, converter.table)
    ensures !ok ==> !Readable(snippets) || Conflict(Starts(snippets))
  {
    match PayloadOf(root, m)
    case Absent => ok := true;
    case Refused => ok := false;
    case Carry(name, schema) =>
      MessagesWithin(root, m);
      PayloadWithin(root, m);
      assert Demand(root, name, schema) in Starts(snippets);
      ReachStart(Starts(snippets), DemandsOf, Demand(root, name, schema));
      ok := converter.InsertSchema(root, name, schema, Starts(snippets));
  }

  /** An operation's inline payload of an AsyncAPI 2.x message stands in the answer under the message id:
      from the channel to the emitted schema. */
  lemma InlinePayloadIsEmitted(snippets: seq<Value>, table: Table, root: Value, c: string, op: string, message: Value, id: string, payload: Value)
    requires Readable(snippets) && Converted(Starts(snippets), table)
    requires root in snippets && !IsV3(root) && op in {"publish", "subscribe"}
    requires GetObject(root, "channels").Some? && c in GetObject(root, "channels").value
    requires message in VariantsAt(GetObject(root, "channels").value[c], op)
    requires RefOf(message).None? && Get(message, "messageId") == Some(Str(id)) && !ForeignFormat(message)
    requires Get(message, "payload") == Some(payload) && RefOf(payload).None? && !MultiFormat(payload)
    ensures ComponentName(id) + "Payload" in table && table[ComponentName(id) + "Payload"] == Rewrite(payload)
  {
    var s := Slot(None, message);
    assert s in OperationSlotsV2(GetObject(root, "channels").value[c], op);
    assert s in ChannelSlots(GetObject(root, "channels").value[c]);
    assert s in SlotsV2(root);
    var m := Message(Some(id), message);
    assert Follow(root, message, MAX_HOPS) == Some(message);
    assert MessageAt(root, s) == Some(m);
    assert m in KeptMessages(root).value;
    assert PayloadOf(root, m) == Carry(ComponentName(id) + "Payload", payload);
    assert Demand(root, ComponentName(id) + "Payload", payload) in Starts(snippets);
  }
}
