/** Projection of states and stream chunks to plain JSON for the layers above the graph engine. */
module Projection {
  import opened Wrappers

  /** The fields the projection reads from a message. */
  datatype AgentMessage = AgentMessage(role: string, content: string, id: Option<string>, calls: Values,
                                       model: Option<string>, usage: Usage)

  /** The token counts found; none at all is reported as no usage. */
  datatype Usage = Usage(prompt: Option<int>, completion: Option<int>, total: Option<int>)

  /** Python values; `Other` stands for any object the projection knows nothing about. */
  datatype Value =
    | Nothing
    | Bool(truth: bool)
    | Whole(number: int)
    | Fraction(real)
    | Text(text: string)
    | List(items: Values)
    | Tuple(items: Values)
    | Dict(entries: Entries)
    | Message(message: AgentMessage)
    | Other(name: string)

  /** Sequences and dictionaries in insertion order, the latest last. */
  datatype Values = Nil | Append(front: Values, last: Value)

  datatype Entries = Empty | Insert(rest: Entries, key: Value, value: Value)

  function Keys(d: Entries): set<Value> {
    match d
    case Empty => {}
    case Insert(rest, k, _) => Keys(rest) + {k}
  }

  function Size(d: Entries): nat {
    match d
    case Empty => 0
    case Insert(rest, _, _) => Size(rest) + 1
  }

  /** `d[key] = value`: a present key keeps its position. */
  function Put(d: Entries, key: Value, value: Value): Entries {
    if key !in Keys(d) then Insert(d, key, value)
    else if d.key == key then Insert(d.rest, key, value)
    else
      Insert(Put(d.rest, key, value), d.key, d.value)
  }

  /** `str(v)`; `render` stands for Python's text of anything but a string. */
  function Shown(v: Value, render: Value -> string): Value {
    if v.Text? then v else Text(render(v))
  }

  function Optional(o: Option<string>): Value {
    match o
    case None => Nothing
    case Some(s) => Text(s)
  }

  function WithCount(d: Entries, name: string, count: Option<int>): Entries {
    match count
    case None => d
    case Some(n) => Insert(d, Text(name), Whole(n))
  }

  function Counts(u: Usage): Entries {
    WithCount(WithCount(WithCount(Empty, "prompt_tokens", u.prompt),
      "completion_tokens", u.completion), "total_tokens", u.total)
  }

  /** `AgentMessage.model_dump()`; an empty list of calls is reported as none. */
  function Dump(m: AgentMessage): Value {
    Dict(Insert(Insert(Insert(Insert(Insert(Insert(Empty,
      Text("type"), Text(m.role)),
      Text("content"), Text(m.content)),
      Text("id"), Optional(m.id)),
      Text("tool_calls"), if m.calls == Nil then Nothing else List(m.calls)),
      Text("model"), Optional(m.model)),
      Text("usage"), if Counts(m.usage) == Empty then Nothing else Dict(Counts(m.usage))))
  }

  /** `_jsonify`. */
  function Jsonify(v: Value, render: Value -> string): Value {
    match v
    case Nothing => v
    case Bool(_) => v
    case Whole(_) => v
    case Fraction(_) => v
    case Text(_) => v
    case List(items) => List(JsonItems(items, render))
    case Tuple(items) => List(JsonItems(items, render))
    case Dict(entries) => Dict(JsonEntries(entries, render))
    case Message(m) => Dump(m)
    case Other(_) => Text(render(v))
  }

  function JsonItems(vs: Values, render: Value -> string): Values {
    match vs
    case Nil => Nil
    case Append(front, last) => Append(JsonItems(front, render), Jsonify(last, render))
  }

  /** Keys with the same text collapse, and the later value wins. */
  function JsonEntries(d: Entries, render: Value -> string): Entries {
    match d
    case Empty => Empty
    case Insert(rest, k, v) => Put(JsonEntries(rest, render), Shown(k, render), Jsonify(v, render))
  }

  // ---- Plain JSON ----------------------------------------------------------------------------

  /** Scalars, lists, and dictionaries with text keys, each once. */
  predicate Plain(v: Value) {
    match v
    case List(items) => PlainItems(items)
    case Dict(entries) => PlainEntries(entries, {})
    case _ => !v.Tuple? && !v.Message? && !v.Other?
  }

  predicate PlainItems(vs: Values) {
    match vs
    case Nil => true
    case Append(front, last) => PlainItems(front) && Plain(last)
  }

  /** Plain but for the values of `hidden` keys. */
  predicate PlainEntries(d: Entries, hidden: set<Value>) {
    match d
    case Empty => true
    case Insert(rest, k, v) =>
      PlainEntries(rest, hidden) && k.Text? && k !in Keys(rest) && (k in hidden || Plain(v))
  }

  /** Every message that is not overwritten by a later equal key holds plain tool calls. */
  predicate MessagesPlain(v: Value, render: Value -> string) {
    match v
    case List(items) => ItemsMessagesPlain(items, render)
    case Tuple(items) => ItemsMessagesPlain(items, render)
    case Dict(entries) => EntriesMessagesPlain(entries, {}, render)
    case Message(m) => PlainItems(m.calls)
    case _ => true
  }

  predicate ItemsMessagesPlain(vs: Values, render: Value -> string) {
    match vs
    case Nil => true
    case Append(front, last) => ItemsMessagesPlain(front, render) && MessagesPlain(last, render)
  }

  predicate EntriesMessagesPlain(d: Entries, later: set<Value>, render: Value -> string) {
    match d
    case Empty => true
    case Insert(rest, k, v) =>
      && EntriesMessagesPlain(rest, later + {Shown(k, render)}, render)
      && (Shown(k, render) in later || MessagesPlain(v, render))
  }

  // ---- Fixed points and idempotence ------------------------------------------------------------

  lemma {:induction false} PutKeys(d: Entries, key: Value, value: Value)
    ensures Keys(Put(d, key, value)) == Keys(d) + {key}
    ensures Size(Put(d, key, value)) == if key in Keys(d) then Size(d) else Size(d) + 1
  {
    if key in Keys(d) && d.key != key {
      PutKeys(d.rest, key, value);
    }
  }

  lemma {:induction false} AbsentKeyHidesNothing(d: Entries, hidden: set<Value>, key: Value)
    requires key !in Keys(d)
    ensures PlainEntries(d, hidden + {key}) == PlainEntries(d, hidden)
  {
    if d.Insert? {
      AbsentKeyHidesNothing(d.rest, hidden, key);
    }
  }

  /** What is put last is seen, what it overwrites is not. */
  lemma {:induction false} PutPlain(d: Entries, key: Value, value: Value, hidden: set<Value>)
    requires key.Text?
    ensures PlainEntries(Put(d, key, value), hidden)
            <==> PlainEntries(d, hidden + {key}) && (key in hidden || Plain(value))
  {
    if key !in Keys(d) {
      AbsentKeyHidesNothing(d, hidden, key);
    } else if d.key == key {
      if key !in Keys(d.rest) {
        AbsentKeyHidesNothing(d.rest, hidden, key);
      }
    } else {
      PutPlain(d.rest, key, value, hidden);
      PutKeys(d.rest, key, value);
    }
  }

  lemma InsertPlain(d: Entries, name: string, value: Value) returns (e: Entries)
    requires Text(name) !in Keys(d)
    ensures e == Insert(d, Text(name), value)
    ensures PlainEntries(e, {}) <==> PlainEntries(d, {}) && Plain(value)
    ensures Keys(e) == Keys(d) + {Text(name)}
  {
    e := Insert(d, Text(name), value);
  }

  lemma WithCountPlain(d: Entries, name: string, count: Option<int>) returns (e: Entries)
    requires Text(name) !in Keys(d) && PlainEntries(d, {})
    ensures e == WithCount(d, name, count) && PlainEntries(e, {})
    ensures Keys(e) <= Keys(d) + {Text(name)}
  {
    e := WithCount(d, name, count);
    if count.Some? {
      e := InsertPlain(d, name, Whole(count.value));
      assert Plain(Whole(count.value));
    }
  }

  lemma CountsPlain(u: Usage)
    ensures PlainEntries(Counts(u), {})
  {
    assert |"prompt_tokens"| == 13 && |"completion_tokens"| == 17 && |"total_tokens"| == 12;
    assert Keys(Empty) == {} && PlainEntries(Empty, {});
    var d := WithCountPlain(Empty, "prompt_tokens", u.prompt);
    d := WithCountPlain(d, "completion_tokens", u.completion);
    d := WithCountPlain(d, "total_tokens", u.total);
  }

  lemma OptionalPlain(o: Option<string>)
    ensures Plain(Optional(o))
  {
  }

  lemma DumpPlain(m: AgentMessage)
    ensures Plain(Dump(m)) <==> PlainItems(m.calls)
  {
    assert |"type"| == 4 && |"content"| == 7 && |"id"| == 2 && |"tool_calls"| == 10 && |"model"| == 5;
    assert "usage"[0] == 'u' && "model"[0] == 'm';
    var calls := if m.calls == Nil then Nothing else List(m.calls);
    var usage := if Counts(m.usage) == Empty then Nothing else Dict(Counts(m.usage));
    assert Plain(calls) <==> PlainItems(m.calls);
    assert Plain(usage) by {
      CountsPlain(m.usage);
    }
    OptionalPlain(m.id);
    OptionalPlain(m.model);
    assert Plain(Text(m.role)) && Plain(Text(m.content));
    assert Keys(Empty) == {} && PlainEntries(Empty, {});
    var d := InsertPlain(Empty, "type", Text(m.role));
    d := InsertPlain(d, "content", Text(m.content));
    d := InsertPlain(d, "id", Optional(m.id));
    d := InsertPlain(d, "tool_calls", calls);
    d := InsertPlain(d, "model", Optional(m.model));
    d := InsertPlain(d, "usage", usage);
    assert Plain(Dict(d)) <==> PlainEntries(d, {});
  }

  /** The projection yields plain JSON exactly when the messages it reports hold plain tool calls. */
  lemma {:induction false} JsonifyPlain(v: Value, render: Value -> string)
    ensures Plain(Jsonify(v, render)) <==> MessagesPlain(v, render)
  {
    match v
    case List(items) => JsonItemsPlain(items, render);
    case Tuple(items) => JsonItemsPlain(items, render);
    case Dict(entries) => JsonEntriesPlain(entries, {}, render);
    case Message(m) => DumpPlain(m);
    case _ =>
  }

  lemma {:induction false} JsonItemsPlain(vs: Values, render: Value -> string)
    ensures PlainItems(JsonItems(vs, render)) <==> ItemsMessagesPlain(vs, render)
  {
    if vs.Append? {
      JsonItemsPlain(vs.front, render);
      JsonifyPlain(vs.last, render);
    }
  }

  lemma {:induction false} JsonEntriesPlain(d: Entries, later: set<Value>, render: Value -> string)
    ensures PlainEntries(JsonEntries(d, render), later) <==> EntriesMessagesPlain(d, later, render)
  {
    if d.Insert? {
      var key := Shown(d.key, render);
      JsonEntriesPlain(d.rest, later + {key}, render);
      JsonifyPlain(d.value, render);
      PutPlain(JsonEntries(d.rest, render), key, Jsonify(d.value, render), later);
    }
  }

  /** The fixed points of the projection are the plain JSON values. */
  lemma {:induction false} FixedIffPlain(v: Value, render: Value -> string)
    ensures Jsonify(v, render) == v <==> Plain(v)
  {
    match v
    case List(items) => FixedItems(items, render);
    case Dict(entries) => FixedEntries(entries, render);
    case _ =>
  }

  lemma {:induction false} FixedItems(vs: Values, render: Value -> string)
    ensures JsonItems(vs, render) == vs <==> PlainItems(vs)
  {
    if vs.Append? {
      FixedItems(vs.front, render);
      FixedIffPlain(vs.last, render);
    }
  }

  lemma {:induction false} JsonEntriesSize(d: Entries, render: Value -> string)
    ensures Size(JsonEntries(d, render)) <= Size(d)
  {
    if d.Insert? {
      JsonEntriesSize(d.rest, render);
      PutKeys(JsonEntries(d.rest, render), Shown(d.key, render), Jsonify(d.value, render));
    }
  }

  lemma {:induction false} FixedEntries(d: Entries, render: Value -> string)
    ensures JsonEntries(d, render) == d <==> PlainEntries(d, {})
  {
    if d.Insert? {
      FixedEntries(d.rest, render);
      FixedIffPlain(d.value, render);
      JsonEntriesSize(d.rest, render);
      PutKeys(JsonEntries(d.rest, render), Shown(d.key, render), Jsonify(d.value, render));
    }
  }

  /** Projecting twice is projecting once exactly when the reported messages hold plain tool calls. */
  lemma JsonifyTwice(v: Value, render: Value -> string)
    ensures Jsonify(Jsonify(v, render), render) == Jsonify(v, render) <==> MessagesPlain(v, render)
  {
    JsonifyPlain(v, render);
    FixedIffPlain(Jsonify(v, render), render);
  }

  // ---- When no entry is lost -----------------------------------------------------------------------

  /** The texts of the keys. */
  function ShownKeys(d: Entries, render: Value -> string): set<Value> {
    match d
    case Empty => {}
    case Insert(rest, k, _) => ShownKeys(rest, render) + {Shown(k, render)}
  }

  /** No two keys have one text. */
  predicate TextsDiffer(d: Entries, render: Value -> string) {
    match d
    case Empty => true
    case Insert(rest, k, _) => TextsDiffer(rest, render) && Shown(k, render) !in ShownKeys(rest, render)
  }

  lemma {:induction false} ProjectedKeys(d: Entries, render: Value -> string)
    ensures Keys(JsonEntries(d, render)) == ShownKeys(d, render)
  {
    if d.Insert? {
      ProjectedKeys(d.rest, render);
      PutKeys(JsonEntries(d.rest, render), Shown(d.key, render), Jsonify(d.value, render));
    }
  }

  /** The projection of a dictionary keeps every entry exactly if no two keys have one text. */
  lemma {:induction false} NothingLostIff(d: Entries, render: Value -> string)
    ensures Size(JsonEntries(d, render)) == Size(d) <==> TextsDiffer(d, render)
  {
    if d.Insert? {
      NothingLostIff(d.rest, render);
      JsonEntriesSize(d.rest, render);
      ProjectedKeys(d.rest, render);
      PutKeys(JsonEntries(d.rest, render), Shown(d.key, render), Jsonify(d.value, render));
    }
  }

  /** Then every entry stands in its place, under the text of its key. */
  lemma {:induction false} EveryEntryStands(d: Entries, render: Value -> string)
    requires TextsDiffer(d, render) && d.Insert?
    ensures JsonEntries(d, render)
            == Insert(JsonEntries(d.rest, render), Shown(d.key, render), Jsonify(d.value, render))
  {
    ProjectedKeys(d.rest, render);
  }

  /** Of two keys with one text the later value stays: an integer key and its text collapse. */
  lemma EqualTextsCollapse(a: Value, b: Value, render: Value -> string)
    requires render(Whole(1)) == "1"
    ensures JsonEntries(Insert(Insert(Empty, Whole(1), a), Text("1"), b), render)
            == Insert(Empty, Text("1"), Jsonify(b, render))
  {
    assert JsonEntries(Insert(Empty, Whole(1), a), render) == Insert(Empty, Text("1"), Jsonify(a, render));
  }

  // ---- Stream chunks ------------------------------------------------------------------------------

  datatype Event = Event(node: string, messages: seq<AgentMessage>, updates: Entries)

  /** A node's update: its channels by name, or something else. */
  datatype Payload = Channels(fields: seq<Channel>) | Bare(value: Value)

  datatype Channel = Channel(name: string, value: Value)

  /** A dictionary holds each name once. */
  predicate OncePerName(fields: seq<Channel>) {
    forall i, j :: 0 <= i < j < |fields| ==> fields[i].name != fields[j].name
  }

  predicate IsMessageList(c: Channel) { c.name == "messages" && c.value.List? }

  function Messages(vs: Values, read: Value -> AgentMessage): seq<AgentMessage> {
    match vs
    case Nil => []
    case Append(front, last) => Messages(front, read) + [read(last)]
  }

  function Lookup(d: Entries, key: string): Option<Value> {
    match d
    case Empty => None
    case Insert(rest, k, v) => if k == Text(key) then Some(v) else Lookup(rest, key)
  }

  /** Every channel is reported once: a message list as messages, any other as an update. */
  ghost predicate Splits(fields: seq<Channel>, messages: seq<AgentMessage>, updates: Entries,
                         read: Value -> AgentMessage, render: Value -> string)
  {
    && (forall i :: 0 <= i < |fields| ==>
         if IsMessageList(fields[i]) then
           messages == Messages(fields[i].value.items, read) && Lookup(updates, fields[i].name) == None
         else
           Lookup(updates, fields[i].name) == Some(Jsonify(fields[i].value, render)))
    && (forall name :: Lookup(updates, name).Some? ==> exists i :: 0 <= i < |fields| && fields[i].name == name)
    && ((forall i :: 0 <= i < |fields| ==> !IsMessageList(fields[i])) ==> messages == [])
  }

  lemma {:induction false} PutLookup(d: Entries, key: string, value: Value)
    ensures forall name ::
      Lookup(Put(d, Text(key), value), name) == if name == key then Some(value) else Lookup(d, name)
  {
    if Text(key) in Keys(d) && d.key != Text(key) {
      PutLookup(d.rest, key, value);
    }
  }

  method SplitChannels(fields: seq<Channel>, read: Value -> AgentMessage, render: Value -> string)
    returns (messages: seq<AgentMessage>, updates: Entries)
    requires OncePerName(fields)
    ensures Splits(fields, messages, updates, read, render)
  {
    messages, updates := [], Empty;
    for i := 0 to |fields|
      invariant Splits(fields[..i], messages, updates, read, render)
    {
      var c := fields[i];
      assert fields[..i + 1] == fields[..i] + [c];
      if IsMessageList(c) {
        messages := Messages(c.value.items, read);
      } else {
        PutLookup(updates, c.name, Jsonify(c.value, render));
        updates := Put(updates, Text(c.name), Jsonify(c.value, render));
      }
    }
    assert fields[..|fields|] == fields;
  }

  ghost predicate Reports(e: Event, node: string, payload: Payload,
                          read: Value -> AgentMessage, render: Value -> string)
  {
    && e.node == node
    && match payload
       case Channels(fields) => Splits(fields, e.messages, e.updates, read, render)
       case Bare(v) => e.messages == [] && e.updates == Insert(Empty, Text("value"), Jsonify(v, render))
  }

  datatype Chunk = ByNode(parts: seq<Part>) | Single(value: Value)

  datatype Part = Part(node: string, payload: Payload)

  /** `to_agent_events`: one event for each node, in the order of the chunk. */
  method ToAgentEvents(chunk: Chunk, read: Value -> AgentMessage, render: Value -> string) returns (events: seq<Event>)
    requires chunk.ByNode? ==>
      forall i :: 0 <= i < |chunk.parts| && chunk.parts[i].payload.Channels? ==>
        OncePerName(chunk.parts[i].payload.fields)
    ensures chunk.Single? ==>
      events == [Event("unknown", [], Insert(Empty, Text("value"), Jsonify(chunk.value, render)))]
    ensures chunk.ByNode? ==>
      && |events| == |chunk.parts|
      && forall i :: 0 <= i < |events| ==> Reports(events[i], chunk.parts[i].node, chunk.parts[i].payload, read, render)
  {
    if chunk.Single? {
      return [Event("unknown", [], Insert(Empty, Text("value"), Jsonify(chunk.value, render)))];
    }
    events := [];
    for i := 0 to |chunk.parts|
      invariant |events| == i
      invariant forall j :: 0 <= j < i ==> Reports(events[j], chunk.parts[j].node, chunk.parts[j].payload, read, render)
    {
      var part := chunk.parts[i];
      if part.payload.Channels? {
        var messages, updates := SplitChannels(part.payload.fields, read, render);
        events := events + [Event(part.node, messages, updates)];
      } else {
        events := events + [Event(part.node, [], Insert(Empty, Text("value"), Jsonify(part.payload.value, render)))];
      }
    }
  }

  // ---- What a dumped message and a list of messages hold ------------------------------------------

  lemma LookupInsert(d: Entries, key: string, value: Value, name: string)
    ensures Lookup(Insert(d, Text(key), value), name) == if name == key then Some(value) else Lookup(d, name)
  {
  }

  /** Each field of a message stands under its own key, and there is no other key. */
  lemma DumpHolds(m: AgentMessage, name: string)
    ensures Dump(m).Dict?
    ensures Lookup(Dump(m).entries, name)
            == if name == "usage" then
                 Some(if Counts(m.usage) == Empty then Nothing else Dict(Counts(m.usage)))
               else if name == "model" then Some(Optional(m.model))
               else if name == "tool_calls" then Some(if m.calls == Nil then Nothing else List(m.calls))
               else if name == "id" then Some(Optional(m.id))
               else if name == "content" then Some(Text(m.content))
               else if name == "type" then Some(Text(m.role))
               else None
  {
    var d0 := Empty;
    var d1 := Insert(d0, Text("type"), Text(m.role));
    var d2 := Insert(d1, Text("content"), Text(m.content));
    var d3 := Insert(d2, Text("id"), Optional(m.id));
    var d4 := Insert(d3, Text("tool_calls"), if m.calls == Nil then Nothing else List(m.calls));
    var d5 := Insert(d4, Text("model"), Optional(m.model));
    LookupInsert(d0, "type", Text(m.role), name);
    LookupInsert(d1, "content", Text(m.content), name);
    LookupInsert(d2, "id", Optional(m.id), name);
    LookupInsert(d3, "tool_calls", if m.calls == Nil then Nothing else List(m.calls), name);
    LookupInsert(d4, "model", Optional(m.model), name);
    LookupInsert(d5, "usage", if Counts(m.usage) == Empty then Nothing else Dict(Counts(m.usage)), name);
  }

  function Count(n: Option<int>): Option<Value> {
    match n
    case None => None
    case Some(k) => Some(Whole(k))
  }

  /** The usage holds exactly the counts found, each under its own key; with none there is no usage. */
  lemma CountsHold(u: Usage, name: string)
    ensures Lookup(Counts(u), name)
            == if name == "total_tokens" then Count(u.total)
               else if name == "completion_tokens" then Count(u.completion)
               else if name == "prompt_tokens" then Count(u.prompt)
               else None
    ensures Counts(u) == Empty <==> u.prompt == None && u.completion == None && u.total == None
  {
    assert |"prompt_tokens"| == 13 && |"completion_tokens"| == 17 && |"total_tokens"| == 12;
    var d1 := WithCount(Empty, "prompt_tokens", u.prompt);
    var d2 := WithCount(d1, "completion_tokens", u.completion);
    WithCountHolds(Empty, "prompt_tokens", u.prompt, name);
    WithCountHolds(d1, "completion_tokens", u.completion, name);
    WithCountHolds(d2, "total_tokens", u.total, name);
  }

  lemma WithCountHolds(d: Entries, key: string, n: Option<int>, name: string)
    ensures Lookup(WithCount(d, key, n), name) == if name == key && n.Some? then Count(n) else Lookup(d, name)
  {
    if n.Some? {
      LookupInsert(d, key, Whole(n.value), name);
    }
  }

  function Length(vs: Values): nat {
    match vs
    case Nil => 0
    case Append(front, _) => Length(front) + 1
  }

  function ItemAt(vs: Values, i: nat): Value
    requires i < Length(vs)
  {
    if i == Length(vs) - 1 then vs.last else ItemAt(vs.front, i)
  }

  /** The messages of an event are those of the list, one by one and in order. */
  lemma {:induction false} MessagesByIndex(vs: Values, read: Value -> AgentMessage)
    ensures |Messages(vs, read)| == Length(vs)
    ensures forall i :: 0 <= i < Length(vs) ==> Messages(vs, read)[i] == read(ItemAt(vs, i))
  {
    if vs.Append? {
      MessagesByIndex(vs.front, read);
    }
  }

  /** Items are projected one by one, a tuple like a list; unknown objects become their text. */
  lemma {:induction false} ItemsByIndex(vs: Values, render: Value -> string)
    ensures Length(JsonItems(vs, render)) == Length(vs)
    ensures forall i :: 0 <= i < Length(vs) ==> ItemAt(JsonItems(vs, render), i) == Jsonify(ItemAt(vs, i), render)
    ensures Jsonify(Tuple(vs), render) == Jsonify(List(vs), render) == List(JsonItems(vs, render))
    ensures forall name :: Jsonify(Other(name), render) == Text(render(Other(name)))
    ensures forall m :: Jsonify(Message(m), render) == Dump(m)
  {
    if vs.Append? {
      ItemsByIndex(vs.front, render);
    }
  }
}
