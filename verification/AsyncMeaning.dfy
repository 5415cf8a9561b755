/** The conversion from the document's side: which messages are kept, what each of them asks for, and under
    which name. */
module AsyncMeaning {
  import opened Json
  import opened SchemaRefs
  import opened References
  import opened AsyncConversion
  import opened AsyncExport

  ghost predicate IsVersion3(root: Value) {
    exists rest :: Get(root, "asyncapi") == Some(Str("3." + rest))
  }

  lemma Version3Iff(root: Value)
    ensures IsV3(root) <==> IsVersion3(root)
  {
    if IsV3(root) {
      var v := GetStr(root, "asyncapi").value;
      assert v == "3." + v[2..];
    }
  }

  // --- Where messages are written ---------------------------------------------------------------

  /** The message itself, or one of its `oneOf` variants. */
  ghost predicate VariantOf(message: Value, raw: Value) {
    match Get(message, "oneOf") case Some(Array(variants)) => raw in variants case _ => raw == message
  }

  /** 2.x: below `publish` or `subscribe` of a channel. */
  ghost predicate WrittenAt(root: Value, c: string, op: string, raw: Value) {
    && (op == "publish" || op == "subscribe")
    && match Part(root, [Key("channels"), Key(c), Key(op), Key("message")])
       case Some(message) => VariantOf(message, raw)
       case None => false
  }

  ghost predicate WrittenV2(root: Value, raw: Value) {
    exists c, op :: WrittenAt(root, c, op, raw)
  }

  lemma WrittenAtIff(root: Value, c: string, op: string, raw: Value)
    ensures WrittenAt(root, c, op, raw) <==>
              && (op == "publish" || op == "subscribe")
              && GetObject(root, "channels").Some? && c in GetObject(root, "channels").value
              && raw in VariantsAt(GetObject(root, "channels").value[c], op)
  {
    FourKeys(root, "channels", c, op, "message");
  }

  lemma SlotsV2Are(root: Value, s: Slot)
    ensures s in SlotsV2(root) <==> WrittenV2(root, s.raw) && s.key == RefKey(s.raw)
  {
    if s in SlotsV2(root) {
      var channels := GetObject(root, "channels").value;
      var c :| c in channels && s in ChannelSlots(channels[c]);
      WrittenAtIff(root, c, "publish", s.raw);
      WrittenAtIff(root, c, "subscribe", s.raw);
    }
    if WrittenV2(root, s.raw) && s.key == RefKey(s.raw) {
      var c, op :| WrittenAt(root, c, op, s.raw);
      WrittenAtIff(root, c, op, s.raw);
      assert s in OperationSlotsV2(GetObject(root, "channels").value[c], op);
      assert s in ChannelSlots(GetObject(root, "channels").value[c]);
    }
  }

  /** 3.x: listed by an operation, or, if it lists none, in the messages of its channel. */
  ghost predicate WrittenFor(root: Value, op: Value, key: Option<string>, raw: Value) {
    match Get(op, "messages")
    case Some(Array(listed)) => raw in listed && key == RefKey(raw)
    case _ => exists channel, k :: ChannelOf(root, op, channel) && MessageIn(channel, k) == Some(raw) && key == Some(k)
  }

  function MessageIn(channel: Value, k: string): Option<Value> {
    Part(channel, [Key("messages"), Key(k)])
  }

  function OperationNamed(root: Value, o: string): Option<Value> {
    Part(root, [Key("operations"), Key(o)])
  }

  ghost predicate ChannelOf(root: Value, op: Value, channel: Value) {
    match Get(op, "channel") case Some(reference) => Leads(HopIn(root), reference, channel, 32) case None => false
  }

  ghost predicate WrittenV3(root: Value, key: Option<string>, raw: Value) {
    exists o :: OperationNamed(root, o).Some? && WrittenFor(root, OperationNamed(root, o).value, key, raw)
  }

  /** The channel of an operation that lists no messages cannot be found. */
  ghost predicate ChannelLost(root: Value, op: Value) {
    && !(Get(op, "messages").Some? && Get(op, "messages").value.Array?)
    && Get(op, "channel").Some? && forall channel :: !ChannelOf(root, op, channel)
  }

  lemma OperationSlotsAre(root: Value, op: Value, s: Slot)
    ensures OperationSlots(root, op).None? <==> ChannelLost(root, op)
    ensures OperationSlots(root, op).Some? ==> (s in OperationSlots(root, op).value <==> WrittenFor(root, op, s.key, s.raw))
  {
    if GetArray(op, "messages").None? && Get(op, "channel").Some? {
      var reference := Get(op, "channel").value;
      forall channel ensures Follow(root, reference, MAX_HOPS) == Some(channel) <==> ChannelOf(root, op, channel) {
        FollowIffLeads(root, reference, channel, MAX_HOPS);
      }
      if Follow(root, reference, MAX_HOPS).Some? {
        ChannelSlotsAre(root, op, Follow(root, reference, MAX_HOPS).value, s);
      }
    }
  }

  lemma ChannelSlotsAre(root: Value, op: Value, channel: Value, s: Slot)
    requires GetArray(op, "messages").None? && Get(op, "channel").Some?
    requires Follow(root, Get(op, "channel").value, MAX_HOPS) == Some(channel)
    requires forall other :: ChannelOf(root, op, other) <==> other == channel
    ensures s in OperationSlots(root, op).value <==> WrittenFor(root, op, s.key, s.raw)
  {
    MessagesInChannel(channel, s);
    if WrittenFor(root, op, s.key, s.raw) {
      var other, k :| ChannelOf(root, op, other) && MessageIn(other, k) == Some(s.raw) && s.key == Some(k);
    }
    if k :| MessageIn(channel, k) == Some(s.raw) && s.key == Some(k) {
      assert ChannelOf(root, op, channel);
    }
  }

  lemma MessagesInChannel(channel: Value, s: Slot)
    ensures (exists k :: MessageIn(channel, k) == Some(s.raw) && s.key == Some(k)) <==>
              match GetObject(channel, "messages") case Some(ms) => s in (set k | k in ms :: Slot(Some(k), ms[k])) case None => false
  {
    if s.key.Some? {
      TwoKeys(channel, "messages", s.key.value);
    }
  }

  ghost predicate SomeChannelLost(root: Value) {
    exists o :: OperationNamed(root, o).Some? && ChannelLost(root, OperationNamed(root, o).value)
  }

  lemma SlotsV3Are(root: Value, s: Slot)
    ensures SlotsV3(root).None? <==> SomeChannelLost(root)
    ensures SlotsV3(root).Some? ==> (s in SlotsV3(root).value <==> WrittenV3(root, s.key, s.raw))
  {
    if SlotsV3(root).None? {
      var operations := GetObject(root, "operations").value;
      var o :| o in operations && OperationSlots(root, operations[o]).None?;
      TwoKeys(root, "operations", o);
      OperationSlotsAre(root, operations[o], s);
      assert OperationNamed(root, o) == Some(operations[o]);
    } else {
      forall o | OperationNamed(root, o).Some? ensures !ChannelLost(root, OperationNamed(root, o).value) {
        TwoKeys(root, "operations", o);
        OperationSlotsAre(root, OperationNamed(root, o).value, s);
      }
      ListedV3(root, s);
    }
  }

  lemma ListedV3(root: Value, s: Slot)
    requires SlotsV3(root).Some?
    ensures s in SlotsV3(root).value <==> WrittenV3(root, s.key, s.raw)
  {
    if s in SlotsV3(root).value {
      var operations := GetObject(root, "operations").value;
      var o :| o in operations && s in OperationSlots(root, operations[o]).value;
      TwoKeys(root, "operations", o);
      OperationSlotsAre(root, operations[o], s);
      assert OperationNamed(root, o) == Some(operations[o]);
    }
    if WrittenV3(root, s.key, s.raw) {
      var o :| OperationNamed(root, o).Some? && WrittenFor(root, OperationNamed(root, o).value, s.key, s.raw);
      TwoKeys(root, "operations", o);
      OperationSlotsAre(root, OperationNamed(root, o).value, s);
    }
  }

  // --- Which messages are kept ------------------------------------------------------------------

  /** `messageId`, or without one `name`, if that is a string. */
  predicate IdFits(node: Value, key: Option<string>) {
    match Get(node, "messageId")
    case Some(Str(id)) => key == Some(id)
    case Some(_) => key == None
    case None => match Get(node, "name") case Some(Str(name)) => key == Some(name) case _ => key == None
  }

  /** The key of a 2.x message: the last segment of its reference, else its id. */
  predicate KeyFitsV2(raw: Value, m: Message) {
    match Get(raw, "$ref") case Some(Str(r)) => m.key == Some(LastSegment(r)) case _ => IdFits(m.node, m.key)
  }

  /** The snippet keeps the message: it is written somewhere, and its references lead to the node. */
  ghost predicate IsKept(root: Value, m: Message) {
    if IsVersion3(root) then exists raw :: WrittenV3(root, m.key, raw) && Leads(HopIn(root), raw, m.node, 32)
    else exists raw :: WrittenV2(root, raw) && Leads(HopIn(root), raw, m.node, 32) && KeyFitsV2(raw, m)
  }

  /** Some reference on the way to a message leads nowhere. */
  ghost predicate MessageLost(root: Value) {
    if IsVersion3(root) then SomeChannelLost(root) || exists key, raw :: WrittenV3(root, key, raw) && NowhereFrom(root, raw)
    else exists raw :: WrittenV2(root, raw) && NowhereFrom(root, raw)
  }

  ghost predicate NowhereFrom(root: Value, raw: Value) {
    forall node :: !Leads(HopIn(root), raw, node, 32)
  }

  lemma MessageAtIs(root: Value, s: Slot, m: Message)
    requires IsV3(root) || s.key == RefKey(s.raw)
    ensures MessageAt(root, s).None? <==> NowhereFrom(root, s.raw)
    ensures MessageAt(root, s) == Some(m) <==>
              Leads(HopIn(root), s.raw, m.node, 32) && if IsV3(root) then m.key == s.key else KeyFitsV2(s.raw, m)
  {
    forall node ensures Follow(root, s.raw, MAX_HOPS) == Some(node) <==> Leads(HopIn(root), s.raw, node, 32) {
      FollowIffLeads(root, s.raw, node, MAX_HOPS);
    }
  }

  lemma SlotsAre(root: Value, s: Slot)
    ensures Slots(root).None? <==> IsVersion3(root) && SomeChannelLost(root)
    ensures Slots(root).Some? ==>
              (s in Slots(root).value <==> if IsVersion3(root) then WrittenV3(root, s.key, s.raw) else WrittenV2(root, s.raw) && s.key == RefKey(s.raw))
  {
    Version3Iff(root);
    if IsV3(root) {
      SlotsV3Are(root, s);
    } else {
      SlotsV2Are(root, s);
    }
  }

  lemma KeptHasSlot(root: Value, m: Message)
    requires Slots(root).Some? && IsKept(root, m)
    ensures exists s :: s in Slots(root).value && MessageAt(root, s) == Some(m)
  {
    Version3Iff(root);
    if IsV3(root) {
      var raw :| WrittenV3(root, m.key, raw) && Leads(HopIn(root), raw, m.node, 32);
      SlotsAre(root, Slot(m.key, raw));
      MessageAtIs(root, Slot(m.key, raw), m);
    } else {
      var raw :| WrittenV2(root, raw) && Leads(HopIn(root), raw, m.node, 32) && KeyFitsV2(raw, m);
      SlotsAre(root, Slot(RefKey(raw), raw));
      MessageAtIs(root, Slot(RefKey(raw), raw), m);
    }
  }

  lemma SlotIsKept(root: Value, s: Slot, m: Message)
    requires Slots(root).Some? && s in Slots(root).value && MessageAt(root, s) == Some(m)
    ensures IsKept(root, m)
  {
    Version3Iff(root);
    SlotsAre(root, s);
    MessageAtIs(root, s, m);
  }

  lemma LostSlot(root: Value)
    requires Slots(root).Some?
    ensures (exists s :: s in Slots(root).value && MessageAt(root, s).None?) <==> MessageLost(root)
  {
    Version3Iff(root);
    SlotsAre(root, Slot(None, Null));
    if s :| s in Slots(root).value && MessageAt(root, s).None? {
      SlotsAre(root, s);
      MessageAtIs(root, s, Message(None, Null));
    }
    if MessageLost(root) {
      if IsV3(root) {
        var key, raw :| WrittenV3(root, key, raw) && NowhereFrom(root, raw);
        SlotsAre(root, Slot(key, raw));
        MessageAtIs(root, Slot(key, raw), Message(None, Null));
      } else {
        var raw :| WrittenV2(root, raw) && NowhereFrom(root, raw);
        SlotsAre(root, Slot(RefKey(raw), raw));
        MessageAtIs(root, Slot(RefKey(raw), raw), Message(None, Null));
      }
    }
  }

  /** The messages of a snippet are exactly those it keeps; there are none to tell exactly when some
      reference on the way leads nowhere. */
  lemma KeptMessagesAre(root: Value, m: Message)
    ensures KeptMessages(root).None? <==> MessageLost(root)
    ensures KeptMessages(root).Some? ==> (m in KeptMessages(root).value <==> IsKept(root, m))
  {
    SlotsAre(root, Slot(None, Null));
    if Slots(root).Some? {
      LostSlot(root);
      if IsKept(root, m) {
        KeptHasSlot(root, m);
      }
      if s :| s in Slots(root).value && MessageAt(root, s) == Some(m) {
        SlotIsKept(root, s, m);
      }
    }
  }

  // --- What a message asks for -----------------------------------------------------------------------

  /** A schema language other than AsyncAPI's. */
  ghost predicate Foreign(v: Value) {
    exists f :: Get(v, "schemaFormat") == Some(Str(f)) && !("application/vnd.aai.asyncapi" <= f)
  }

  /** The format is stated beside the payload, or inside it around a schema. */
  ghost predicate ForeignPayload(node: Value) {
    Foreign(node) ||
    match Get(node, "payload") case Some(outer) => Get(outer, "schema").Some? && Foreign(outer) case None => false
  }

  /** The payload schema, taken out of a multi-format object. */
  predicate PayloadIs(node: Value, payload: Value) {
    match Get(node, "payload")
    case None => false
    case Some(outer) =>
      if Get(outer, "schemaFormat").Some? && Get(outer, "schema").Some? then Get(outer, "schema") == Some(payload) else payload == outer
  }

  /** The payload is a reference to a whole component schema. */
  ghost predicate NamesComponent(payload: Value, segment: string) {
    Get(payload, "$ref") == Some(Str("#/components/schemas/" + segment)) && '/' !in segment
  }

  /** A component keeps its name; any other payload is named after the message. */
  ghost predicate Asks(root: Value, m: Message, name: string, schema: Value) {
    && !ForeignPayload(m.node)
    && exists payload :: PayloadIs(m.node, payload) && AsksWith(root, m, payload, name, schema)
  }

  ghost predicate AsksWith(root: Value, m: Message, payload: Value, name: string, schema: Value) {
    if exists segment :: NamesComponent(payload, segment) then
      exists segment :: NamesComponent(payload, segment) && name == Unescape(segment) &&
        Resolve(root, "#/components/schemas/" + segment) == Some(schema)
    else exists key :: m.key == Some(key) && name == ComponentName(key) + "Payload" && schema == payload
  }

  /** The format is foreign, the component is missing, or there is nothing to name the payload after. */
  ghost predicate CannotBeCarried(root: Value, m: Message) {
    ForeignPayload(m.node) || exists payload :: PayloadIs(m.node, payload) && forall name, schema :: !AsksWith(root, m, payload, name, schema)
  }

  lemma ForeignIff(v: Value)
    ensures ForeignFormat(v) <==> Foreign(v)
  {}

  lemma NamesComponentIff(payload: Value, segment: string)
    ensures NamesComponent(payload, segment) <==>
              match RefOf(payload) case Some(r) => Kept(r) && '/' !in r[|SCHEMAS|..] && segment == r[|SCHEMAS|..] case None => false
  {
    var prefix := "#/components/schemas/";
    assert SCHEMAS == prefix;
    if RefOf(payload).Some? {
      var r := RefOf(payload).value;
      if prefix <= r {
        assert r == prefix + r[|prefix|..];
      }
      assert r == prefix + segment ==> r[|prefix|..] == segment;
    }
  }

  /** The payload behind a multi-format object. */
  function Inner(outer: Value): Value {
    if MultiFormat(outer) then Get(outer, "schema").value else outer
  }

  lemma PayloadIsInner(node: Value, payload: Value)
    ensures PayloadIs(node, payload) <==> Get(node, "payload").Some? && payload == Inner(Get(node, "payload").value)
  {}

  lemma AsksWithIff(root: Value, m: Message, outer: Value, name: string, schema: Value)
    requires Get(m.node, "payload") == Some(outer) && !ForeignFormat(m.node) && !(MultiFormat(outer) && ForeignFormat(outer))
    ensures AsksWith(root, m, Inner(outer), name, schema) <==> PayloadOf(root, m) == Carry(name, schema)
    ensures !PayloadOf(root, m).Absent?
  {
    var payload := Inner(outer);
    forall segment { NamesComponentIff(payload, segment); }
    if segment :| NamesComponent(payload, segment) {
      assert RefOf(payload) == Some("#/components/schemas/" + segment);
      assert PayloadOf(root, m) == match Resolve(root, "#/components/schemas/" + segment) case Some(t) => Carry(Unescape(segment), t) case None => Refused;
    } else {
      if RefOf(payload).Some? {
        NamesComponentIff(payload, if |SCHEMAS| <= |RefOf(payload).value| then RefOf(payload).value[|SCHEMAS|..] else "");
      }
      assert PayloadOf(root, m) == InlinePayload(m, payload);
    }
  }

  /** What is carried over for a message is exactly what it asks for, and it is refused exactly when that
      cannot be carried. */
  lemma PayloadOfIs(root: Value, m: Message, name: string, schema: Value)
    ensures PayloadOf(root, m) == Carry(name, schema) <==> Asks(root, m, name, schema)
    ensures PayloadOf(root, m).Refused? <==> CannotBeCarried(root, m)
  {
    ForeignIff(m.node);
    if Get(m.node, "payload").Some? {
      var outer := Get(m.node, "payload").value;
      ForeignIff(outer);
      forall payload { PayloadIsInner(m.node, payload); }
      if !ForeignFormat(m.node) && !(MultiFormat(outer) && ForeignFormat(outer)) {
        forall n, t ensures AsksWith(root, m, Inner(outer), n, t) <==> PayloadOf(root, m) == Carry(n, t) {
          AsksWithIff(root, m, outer, n, t);
        }
        AsksWithIff(root, m, outer, name, schema);
        assert PayloadIs(m.node, Inner(outer));
      }
    }
  }

  // --- From the document to the answer ----------------------------------------------------------------

  /** A conversion starts from what the kept messages of the snippets ask for, and from nothing else. */
  lemma StartsAre(snippets: seq<Value>, d: Demand)
    requires forall root :: root in snippets ==> KeptMessages(root).Some?
    ensures d in Starts(snippets) <==> d.root in snippets && exists m :: IsKept(d.root, m) && Asks(d.root, m, d.name, d.source)
  {
    if d in Starts(snippets) {
      var root, m :| root in snippets && KeptMessages(root).Some? && m in KeptMessages(root).value &&
        PayloadOf(root, m).Carry? && d == Demand(root, PayloadOf(root, m).name, PayloadOf(root, m).schema);
      KeptMessagesAre(root, m);
      PayloadOfIs(root, m, d.name, d.source);
    }
    if d.root in snippets {
      if m :| IsKept(d.root, m) && Asks(d.root, m, d.name, d.source) {
        KeptMessagesAre(d.root, m);
        PayloadOfIs(d.root, m, d.name, d.source);
      }
    }
  }

  ghost predicate CanBeRead(root: Value) {
    !MessageLost(root) && forall m :: IsKept(root, m) ==> !CannotBeCarried(root, m)
  }

  lemma CanBeReadIff(root: Value)
    ensures CanBeRead(root) <==> KeptMessages(root).Some? && forall m :: m in KeptMessages(root).value ==> !PayloadOf(root, m).Refused?
  {
    KeptMessagesAre(root, Message(None, Null));
    if KeptMessages(root).Some? {
      forall m
        ensures m in KeptMessages(root).value <==> IsKept(root, m)
        ensures PayloadOf(root, m).Refused? <==> CannotBeCarried(root, m)
      {
        KeptMessagesAre(root, m);
        PayloadOfIs(root, m, "", Null);
      }
    }
  }

  /** Nothing is refused exactly when no message is lost and every kept one can be carried. */
  lemma ReadableIff(snippets: seq<Value>)
    ensures Readable(snippets) <==> forall root :: root in snippets ==> CanBeRead(root)
  {
    forall root | root in snippets
      ensures CanBeRead(root) <==> KeptMessages(root).Some? && forall m :: m in KeptMessages(root).value ==> !PayloadOf(root, m).Refused?
    {
      CanBeReadIff(root);
    }
  }

  /** From the document to the answer, for both versions: the payload of every message that is written in
      place, referred to, listed by an operation or declared by its channel stands in the answer, respelled,
      under the name it asks for. */
  lemma PayloadsAreEmitted(snippets: seq<Value>, table: Table, root: Value, m: Message, name: string, schema: Value)
    requires Readable(snippets) && Converted(Starts(snippets), table)
    requires root in snippets && IsKept(root, m) && Asks(root, m, name, schema)
    ensures name in table && table[name] == Rewrite(schema)
  {
    StartsAre(snippets, Demand(root, name, schema));
    assert Met(table, Demand(root, name, schema));
  }
}
