/** The impact of a changed AsyncAPI document on the messages it declares. */
module MessageImpact {
  import opened Json
  import opened PayloadCompat
  import opened Text

  // --- Which messages a document declares -------------------------------------------------------

  /** `name`, else `title`, when that is a string. */
  function MessageName(message: Value): Option<string> {
    if Get(message, "name").Some? then GetStr(message, "name") else GetStr(message, "title")
  }

  function MessageKey(channel: string, op: string, message: Value, index: nat): string {
    match MessageName(message)
    case Some(name) => channel + "/" + op + "/" + name
    case None => channel + "/" + op + "/#" + Decimal(index)
  }

  function Variants(channel: Value, op: string): seq<Value> {
    match Get(channel, op)
    case None => []
    case Some(operation) =>
      match Get(operation, "message")
      case None => []
      case Some(message) => match GetArray(message, "oneOf") case Some(variants) => variants case None => [message]
  }

  type Entry = (string, Value)

  function NamedEntries(c: string, messages: map<string, Value>): set<Entry> {
    set m | m in messages :: (c + "/" + m, messages[m])
  }

  function VariantEntries(c: string, op: string, variants: seq<Value>, n: nat): set<Entry>
    requires n <= |variants|
  {
    set i | 0 <= i < n :: (MessageKey(c, op, variants[i], i), variants[i])
  }

  function MessagesOf(channel: Value): map<string, Value> {
    match GetObject(channel, "messages") case Some(ms) => ms case None => map[]
  }

  /** 3.x messages by their names, 2.x messages by operation and variant. */
  function ChannelEntries(c: string, channel: Value): set<Entry> {
    NamedEntries(c, MessagesOf(channel)) +
    VariantEntries(c, "publish", Variants(channel, "publish"), |Variants(channel, "publish")|) +
    VariantEntries(c, "subscribe", Variants(channel, "subscribe"), |Variants(channel, "subscribe")|)
  }

  function Channels(root: Value): map<string, Value> {
    match GetObject(root, "channels") case Some(cs) => cs case None => map[]
  }

  /** The table has exactly the keys of the entries, each with one of its messages. */
  ghost predicate Covers(table: map<string, Value>, entries: set<Entry>) {
    && (forall e :: e in entries ==> e.0 in table)
    && (forall key :: key in table ==> (key, table[key]) in entries)
  }

  lemma CoversAdd(table: map<string, Value>, entries: set<Entry>, key: string, message: Value)
    requires Covers(table, entries)
    ensures Covers(table[key := message], entries + {(key, message)})
  {}

  method AddNamed(given: map<string, Value>, c: string, messages: map<string, Value>, ghost entries: set<Entry>)
    returns (table: map<string, Value>)
    requires Covers(given, entries)
    ensures Covers(table, entries + NamedEntries(c, messages))
  {
    table := given;
    var todo := messages.Keys;
    assert entries + NamedEntries(c, messages - todo) == entries;
    while todo != {}
      invariant todo <= messages.Keys
      invariant Covers(table, entries + NamedEntries(c, messages - todo))
    {
      var m :| m in todo;
      CoversAdd(table, entries + NamedEntries(c, messages - todo), c + "/" + m, messages[m]);
      NamedEntriesStep(c, messages, todo, m);
      table, todo := table[c + "/" + m := messages[m]], todo - {m};
      assert entries + NamedEntries(c, messages - todo) == entries + NamedEntries(c, messages - (todo + {m})) + {(c + "/" + m, messages[m])};
    }
    assert messages - {} == messages;
  }

  lemma NamedEntriesStep(c: string, messages: map<string, Value>, todo: set<string>, m: string)
    requires m in todo && todo <= messages.Keys
    ensures NamedEntries(c, messages - (todo - {m})) == NamedEntries(c, messages - todo) + {(c + "/" + m, messages[m])}
    ensures todo - {m} + {m} == todo
  {
    var less, more := messages - todo, messages - (todo - {m});
    forall e | e in NamedEntries(c, more) ensures e in NamedEntries(c, less) + {(c + "/" + m, messages[m])} {
      var k :| k in more && e == (c + "/" + k, more[k]);
      if k != m {
        assert k in less;
      }
    }
    forall e | e in NamedEntries(c, less) ensures e in NamedEntries(c, more) {
      var k :| k in less && e == (c + "/" + k, less[k]);
      assert k in more && more[k] == less[k];
    }
    assert m in more;
  }

  method AddVariants(given: map<string, Value>, c: string, op: string, variants: seq<Value>, ghost entries: set<Entry>)
    returns (table: map<string, Value>)
    requires Covers(given, entries)
    ensures Covers(table, entries + VariantEntries(c, op, variants, |variants|))
  {
    table := given;
    assert entries + VariantEntries(c, op, variants, 0) == entries;
    for i := 0 to |variants|
      invariant Covers(table, entries + VariantEntries(c, op, variants, i))
    {
      var key := MessageKey(c, op, variants[i], i);
      CoversAdd(table, entries + VariantEntries(c, op, variants, i), key, variants[i]);
      assert VariantEntries(c, op, variants, i + 1) == VariantEntries(c, op, variants, i) + {(key, variants[i])};
      assert entries + VariantEntries(c, op, variants, i + 1) == entries + VariantEntries(c, op, variants, i) + {(key, variants[i])};
      table := table[key := variants[i]];
    }
  }

  method AddChannel(given: map<string, Value>, c: string, channel: Value, ghost entries: set<Entry>) returns (table: map<string, Value>)
    requires Covers(given, entries)
    ensures Covers(table, entries + ChannelEntries(c, channel))
  {
    table := AddNamed(given, c, MessagesOf(channel), entries);
    ghost var named := entries + NamedEntries(c, MessagesOf(channel));
    var published, subscribed := Variants(channel, "publish"), Variants(channel, "subscribe");
    table := AddVariants(table, c, "publish", published, named);
    ghost var both := named + VariantEntries(c, "publish", published, |published|);
    table := AddVariants(table, c, "subscribe", subscribed, both);
    assert both + VariantEntries(c, "subscribe", subscribed, |subscribed|) == entries + ChannelEntries(c, channel);
  }

  ghost function EntriesOf(channels: map<string, Value>): set<Entry> {
    set c, e | c in channels && e in ChannelEntries(c, channels[c]) :: e
  }

  lemma EntriesStep(channels: map<string, Value>, todo: set<string>, c: string)
    requires c in todo && todo <= channels.Keys
    ensures EntriesOf(channels - (todo - {c})) == EntriesOf(channels - todo) + ChannelEntries(c, channels[c])
  {
    var less, more := channels - todo, channels - (todo - {c});
    assert more == less[c := channels[c]];
    forall e ensures e in EntriesOf(more) <==> e in EntriesOf(less) || e in ChannelEntries(c, channels[c]) {
      OneMoreChannel(less, c, channels[c], e);
    }
  }

  lemma OneMoreChannel(channels: map<string, Value>, c: string, channel: Value, e: Entry)
    requires c !in channels
    ensures e in EntriesOf(channels[c := channel]) <==> e in EntriesOf(channels) || e in ChannelEntries(c, channel)
  {
    var more := channels[c := channel];
    if e in EntriesOf(more) {
      var d :| d in more && e in ChannelEntries(d, more[d]);
    }
    if e in EntriesOf(channels) {
      var d :| d in channels && e in ChannelEntries(d, channels[d]);
      assert d in more && more[d] == channels[d];
    }
    if e in ChannelEntries(c, channel) {
      assert c in more && more[c] == channel;
    }
  }

  /** The source's loops over channels, messages, operations and variants; of several messages under one key
      one is kept. */
  method CollectMessages(root: Value) returns (table: map<string, Value>)
    ensures forall key :: key in table <==> exists m :: Declares(root, key, m)
    ensures forall key :: key in table ==> Declares(root, key, table[key])
  {
    var channels := Channels(root);
    table := map[];
    var todo := channels.Keys;
    assert EntriesOf(channels - todo) == {};
    while todo != {}
      invariant todo <= channels.Keys
      invariant Covers(table, EntriesOf(channels - todo))
    {
      var c :| c in todo;
      EntriesStep(channels, todo, c);
      table := AddChannel(table, c, channels[c], EntriesOf(channels - todo));
      todo := todo - {c};
    }
    assert channels - {} == channels;
    CoversDeclared(root, table);
  }

  lemma CoversDeclared(root: Value, table: map<string, Value>)
    requires Covers(table, EntriesOf(Channels(root)))
    ensures forall key :: key in table <==> exists m :: Declares(root, key, m)
    ensures forall key :: key in table ==> Declares(root, key, table[key])
  {
    forall key, m ensures Declares(root, key, m) <==> (key, m) in EntriesOf(Channels(root)) {
      DeclaresIff(root, key, m);
    }
    forall key | exists m :: Declares(root, key, m) ensures key in table {
      var m :| Declares(root, key, m);
      assert (key, m) in EntriesOf(Channels(root));
    }
  }

  // --- The same from the document's side ------------------------------------------------------------

  /** 3.x: `channels.<channel>.messages.<name>`. */
  ghost predicate DeclaresNamed(root: Value, key: string, message: Value) {
    exists c, m :: Part(root, [Key("channels"), Key(c), Key("messages"), Key(m)]) == Some(message) && key == c + "/" + m
  }

  /** 2.x: `channels.<channel>.publish` or `subscribe`, the message itself or the variant at `i`. */
  ghost predicate VariantAt(root: Value, c: string, op: string, i: nat, message: Value) {
    && (op == "publish" || op == "subscribe")
    && match Part(root, [Key("channels"), Key(c), Key(op), Key("message")])
       case Some(whole) => (match Get(whole, "oneOf") case Some(Array(vs)) => i < |vs| && vs[i] == message case _ => i == 0 && message == whole)
       case None => false
  }

  /** Channel, operation, and the name, the title or the position. */
  predicate KeyFits(c: string, op: string, message: Value, i: nat, key: string) {
    match Get(message, "name")
    case Some(Str(name)) => key == c + "/" + op + "/" + name
    case Some(_) => key == c + "/" + op + "/#" + Decimal(i)
    case None => match Get(message, "title")
      case Some(Str(title)) => key == c + "/" + op + "/" + title
      case _ => key == c + "/" + op + "/#" + Decimal(i)
  }

  ghost predicate DeclaresVariant(root: Value, key: string, message: Value) {
    exists c, op, i: nat :: VariantAt(root, c, op, i, message) && KeyFits(c, op, message, i, key)
  }

  ghost predicate Declares(root: Value, key: string, message: Value) {
    DeclaresNamed(root, key, message) || DeclaresVariant(root, key, message)
  }

  lemma KeyFitsIff(c: string, op: string, message: Value, i: nat, key: string)
    ensures KeyFits(c, op, message, i, key) <==> key == MessageKey(c, op, message, i)
  {}

  lemma VariantAtIff(root: Value, c: string, op: string, i: nat, message: Value)
    ensures VariantAt(root, c, op, i, message) <==>
              && (op == "publish" || op == "subscribe") && c in Channels(root)
              && i < |Variants(Channels(root)[c], op)| && Variants(Channels(root)[c], op)[i] == message
  {
    FourKeys(root, "channels", c, op, "message");
  }

  lemma NamedIff(root: Value, c: string, m: string, message: Value)
    ensures Part(root, [Key("channels"), Key(c), Key("messages"), Key(m)]) == Some(message) <==>
              c in Channels(root) && m in MessagesOf(Channels(root)[c]) && MessagesOf(Channels(root)[c])[m] == message
  {
    FourKeys(root, "channels", c, "messages", m);
  }

  lemma DeclaresIff(root: Value, key: string, message: Value)
    ensures Declares(root, key, message) <==> (key, message) in EntriesOf(Channels(root))
  {
    var channels := Channels(root);
    if DeclaresNamed(root, key, message) {
      var c, m :| Part(root, [Key("channels"), Key(c), Key("messages"), Key(m)]) == Some(message) && key == c + "/" + m;
      NamedIff(root, c, m, message);
      assert (key, message) in NamedEntries(c, MessagesOf(channels[c]));
      assert (key, message) in ChannelEntries(c, channels[c]);
    }
    if DeclaresVariant(root, key, message) {
      var c, op, i: nat :| VariantAt(root, c, op, i, message) && KeyFits(c, op, message, i, key);
      VariantAtIff(root, c, op, i, message);
      KeyFitsIff(c, op, message, i, key);
      assert (key, message) in VariantEntries(c, op, Variants(channels[c], op), |Variants(channels[c], op)|);
      assert (key, message) in ChannelEntries(c, channels[c]);
    }
    if (key, message) in EntriesOf(channels) {
      var c :| c in channels && (key, message) in ChannelEntries(c, channels[c]);
      EntryDeclared(root, c, key, message);
    }
  }

  lemma EntryDeclared(root: Value, c: string, key: string, message: Value)
    requires c in Channels(root) && (key, message) in ChannelEntries(c, Channels(root)[c])
    ensures Declares(root, key, message)
  {
    var channel := Channels(root)[c];
    if (key, message) in NamedEntries(c, MessagesOf(channel)) {
      var m :| m in MessagesOf(channel) && (key, message) == (c + "/" + m, MessagesOf(channel)[m]);
      NamedIff(root, c, m, message);
    } else if (key, message) in VariantEntries(c, "publish", Variants(channel, "publish"), |Variants(channel, "publish")|) {
      VariantDeclared(root, c, "publish", key, message);
    } else {
      VariantDeclared(root, c, "subscribe", key, message);
    }
  }

  lemma VariantDeclared(root: Value, c: string, op: string, key: string, message: Value)
    requires c in Channels(root) && (op == "publish" || op == "subscribe")
    requires var vs := Variants(Channels(root)[c], op); (key, message) in VariantEntries(c, op, vs, |vs|)
    ensures DeclaresVariant(root, key, message)
  {
    var vs := Variants(Channels(root)[c], op);
    var i :| 0 <= i < |vs| && (key, message) == (MessageKey(c, op, vs[i], i), vs[i]);
    VariantAtIff(root, c, op, i, message);
    KeyFitsIff(c, op, message, i, key);
  }

  // --- Impact -----------------------------------------------------------------------------------------

  /** The message kept under a key. Where several are declared, which one is fixed by the document; here it
      is left open. */
  ghost function Message(root: Value, key: string): Option<Value> {
    if exists m :: Declares(root, key, m) then (var m :| Declares(root, key, m); Some(m)) else None
  }

  lemma MessageIs(root: Value, key: string)
    ensures Message(root, key).Some? ==> Declares(root, key, Message(root, key).value)
    ensures Message(root, key).None? ==> forall m :: !Declares(root, key, m)
  {}

  ghost predicate MessageKept(was: Value, now: Option<Value>) {
    match now
    case None => IsDeprecated(was)
    case Some(message) =>
      match (Get(was, "payload"), Get(message, "payload"))
      case (Some(o), Some(n)) => Provides(o, n)
      case (Some(_), None) => false
      case _ => true
  }

  ghost predicate BackwardCompatible(was: Value, now: Value) {
    forall key :: Message(was, key).Some? ==> MessageKept(Message(was, key).value, Message(now, key))
  }

  datatype Impact = NoImpact | Patch | Minor | Major

  /** How a text reads as a document, if it does: every result holds for any such reading. */
  type Parser = string -> Option<Value>

  ghost predicate TextsCompatible(parse: Parser, was: string, now: string) {
    match (parse(was), parse(now))
    case (Some(o), Some(n)) => BackwardCompatible(o, n)
    case _ => false
  }

  /** The impact of one stored text on another. */
  ghost function AnalyzeImpact(parse: Parser, was: string, now: string): Impact {
    if !TextsCompatible(parse, was, now) then Major
    else if !TextsCompatible(parse, now, was) then Minor
    else if was != now then Patch
    else NoImpact
  }

  lemma CompatibleWithItself(d: Value)
    ensures BackwardCompatible(d, d)
  {
    forall key | Message(d, key).Some? ensures MessageKept(Message(d, key).value, Message(d, key)) {
      var m := Message(d, key).value;
      if Get(m, "payload").Some? {
        ProvidesItself(Get(m, "payload").value);
      }
    }
  }

  /** A text has no impact against another exactly when it is the same text and can be read: a change
      accepted in both directions is still a patch. */
  lemma NoImpactIffSame(parse: Parser, was: string, now: string)
    ensures AnalyzeImpact(parse, was, now) == NoImpact <==> was == now && parse(was).Some?
  {
    if was == now && parse(was).Some? {
      CompatibleWithItself(parse(was).value);
    }
  }

  /** A change of wording alone is a patch, never more. */
  lemma RewordedIsPatch(parse: Parser, was: string, now: string)
    requires was != now && parse(was).Some? && parse(was) == parse(now)
    ensures AnalyzeImpact(parse, was, now) == Patch
  {
    CompatibleWithItself(parse(was).value);
  }

  /** Under this key something a client relied on is gone: the message without notice, its payload, or some
      place of the payload that is provided no longer. */
  ghost predicate BreaksAt(was: Value, now: Value, key: string) {
    match (Message(was, key), Message(now, key))
    case (None, _) => false
    case (Some(o), None) => Get(o, "deprecated") != Some(Bool(true)) && Get(o, "x-deprecated") != Some(Bool(true))
    case (Some(o), Some(n)) =>
      match (Get(o, "payload"), Get(n, "payload"))
      case (None, _) => false
      case (Some(_), None) => true
      case (Some(a), Some(b)) => exists path :: !ProvidesAt(a, b, path)
  }

  ghost predicate BreaksNowhere(was: Value, now: Value) {
    forall key :: !BreaksAt(was, now, key)
  }

  lemma CompatibleIff(was: Value, now: Value)
    ensures BackwardCompatible(was, now) <==> BreaksNowhere(was, now)
  {
    forall key ensures BreaksAt(was, now, key) <==> Message(was, key).Some? && !MessageKept(Message(was, key).value, Message(now, key)) {
      if Message(was, key).Some? && Message(now, key).Some? {
        var o, n := Message(was, key).value, Message(now, key).value;
        if Get(o, "payload").Some? && Get(n, "payload").Some? {
          ProvidesIffEverywhere(Get(o, "payload").value, Get(n, "payload").value);
        }
      }
    }
  }

  /** Each outcome: major when a text cannot be read or something breaks, minor when something breaks only
      the other way round, which is an addition, patch when nothing breaks but the texts differ. */
  lemma ImpactIff(parse: Parser, was: string, now: string)
    ensures AnalyzeImpact(parse, was, now) == Major <==>
              parse(was).None? || parse(now).None? || !BreaksNowhere(parse(was).value, parse(now).value)
    ensures AnalyzeImpact(parse, was, now) == Minor <==>
              && parse(was).Some? && parse(now).Some? && BreaksNowhere(parse(was).value, parse(now).value)
              && !BreaksNowhere(parse(now).value, parse(was).value)
    ensures AnalyzeImpact(parse, was, now) == Patch <==>
              && parse(was).Some? && parse(now).Some? && BreaksNowhere(parse(was).value, parse(now).value)
              && BreaksNowhere(parse(now).value, parse(was).value) && was != now
  {
    if parse(was).Some? && parse(now).Some? {
      CompatibleIff(parse(was).value, parse(now).value);
      CompatibleIff(parse(now).value, parse(was).value);
    }
  }
}
