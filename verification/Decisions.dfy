/** How a decision of the language model is normalised, validated and routed. */
module Decisions {
  import opened Wrappers
  import Text
  import opened Messages
  import opened EvidenceLoop

  datatype Json =
    | Null
    | Bool(value: bool)
    | Num(number: int)
    | Str(text: string)
    | List(items: seq<Json>)
    | Dict(fields: map<string, Json>)

  /** Python's `bool(v)`. */
  predicate Truthy(v: Json) {
    match v
    case Null => false
    case Bool(b) => b
    case Num(n) => n != 0
    case Str(s) => s != ""
    case List(items) => items != []
    case Dict(fields) => fields != map[]
  }

  type Object = map<string, Json>

  /** `d.get(key)`. */
  function Get(d: Object, key: string): Json {
    if key in d then d[key] else Null
  }

  /** `str(v)`; `render` stands for Python's text of anything but a string. */
  function Shown(v: Json, render: Json -> string): string {
    if v.Str? then v.text else render(v)
  }

  /** `list(v) if isinstance(v, list) else [str(v)]`. */
  function AsList(v: Json, render: Json -> string): Json {
    if v.List? then v else List([Str(Shown(v, render))])
  }

  // ---- The two schemas -----------------------------------------------------------------------

  /** Another key for the flag; a negated one says that the context is sufficient. */
  datatype Alias = Alias(key: string, negated: bool)

  /**
   What distinguishes the schemas: the flag asking for another round, its other names in order of
   preference, the keys that hint at it, the list, and the list's other names.
   */
  datatype Schema = Schema(flag: string, aliases: seq<Alias>, hints: seq<string>,
                           list: string, others: seq<string>)

  const RESEARCH := Schema(
    "needs_more_research",
    [Alias("sufficient_context", true), Alias("needs_more_search", false)],
    ["follow_up_search_queries"],
    "search_queries",
    ["follow_up_search_queries", "queries", "additional_search_queries"])

  const WORKSPACE := Schema(
    "needs_more_tool_calls",
    [Alias("needs_more_research", false), Alias("sufficient_context", true),
     Alias("needs_more_search", false)],
    ["follow_up_hints", "search_queries"],
    "follow_up_hints",
    ["search_queries", "follow_up_search_queries", "queries", "additional_search_queries"])

  /** The decision loops know these two. */
  predicate Known(schema: Schema) { schema == RESEARCH || schema == WORKSPACE }

  // ---- The specification -----------------------------------------------------------------------

  /** The value of the first key that has a truthy one, as a chain of Python's `or` yields it. */
  function FirstTruthy(d: Object, keys: seq<string>): (v: Json)
    ensures Truthy(v) <==> exists k :: k in keys && Truthy(Get(d, k))
    ensures !Truthy(v) ==> v == Null
  {
    if keys == [] then Null
    else if Truthy(Get(d, keys[0])) then Get(d, keys[0])
    else
      FirstTruthy(d, keys[1..])
  }

  datatype Said = Unsaid | Yes | No

  /** What the first of the other names present says about another round. */
  function AliasSays(d: Object, aliases: seq<Alias>): Said {
    if aliases == [] then Unsaid
    else if aliases[0].key in d then
      if Truthy(d[aliases[0].key]) != aliases[0].negated then Yes else No
    else AliasSays(d, aliases[1..])
  }

  function ListValue(schema: Schema, d: Object, render: Json -> string): (v: Json)
    ensures v.List?
  {
    var first := FirstTruthy(d, [schema.list] + schema.others);
    if Truthy(first) then AsList(first, render) else List([])
  }

  const REASONS := ["reasoning", "explanation", "justification"]
  const NO_REASON := "No reasoning provided."

  function Reason(d: Object, render: Json -> string): string {
    var first := FirstTruthy(d, REASONS);
    if Truthy(first) then Text.Strip(Shown(first, render)) else NO_REASON
  }

  /** An explicit flag stays as it is; otherwise another name decides, otherwise the list does. */
  function FlagValue(schema: Schema, d: Object, render: Json -> string): Json {
    if schema.flag in d then d[schema.flag]
    else
      match AliasSays(d, schema.aliases)
      case Yes => Bool(true)
      case No => Bool(false)
      case Unsaid => Bool(Truthy(ListValue(schema, d, render)))
  }

  function Normalized(schema: Schema, d: Object, render: Json -> string): Object {
    d[schema.list := ListValue(schema, d, render)]
     ["reasoning" := Str(Reason(d, render))]
     [schema.flag := FlagValue(schema, d, render)]
  }

  // ---- The steps of a normalizer ----------------------------------------------------------------

  /** First step: an alias or a hint sets a missing flag. */
  function Early(schema: Schema, d: Object): Object {
    if schema.flag in d then d
    else
      match AliasSays(d, schema.aliases)
      case Yes => d[schema.flag := Bool(true)]
      case No => d[schema.flag := Bool(false)]
      case Unsaid => if Truthy(FirstTruthy(d, schema.hints)) then d[schema.flag := Bool(true)] else d
  }

  function WithList(schema: Schema, d: Object, render: Json -> string): Object {
    d[schema.list := ListValue(schema, d, render)]
  }

  function WithReason(d: Object, render: Json -> string): Object {
    d["reasoning" := Str(Reason(d, render))]
  }

  /** Last step: the list sets a flag that is still missing. */
  function Late(schema: Schema, d: Object): Object {
    if schema.flag in d then d
    else d[schema.flag := Bool(Truthy(Get(d, schema.list)))]
  }

  lemma {:induction false} OtherKeys(d: Object, key: string, v: Json, keys: seq<string>)
    requires key !in keys
    ensures FirstTruthy(d[key := v], keys) == FirstTruthy(d, keys)
  {
    if keys != [] {
      assert Get(d[key := v], keys[0]) == Get(d, keys[0]);
      OtherKeys(d, key, v, keys[1..]);
    }
  }

  /** The keys a normalizer writes do not get in the way of those it reads later. */
  ghost predicate Apart(schema: Schema) {
    && schema.flag != schema.list
    && (forall k :: k in schema.others ==> k != schema.flag && k != "reasoning" && k != schema.list)
    && (forall k :: k in REASONS ==> k != schema.flag && k != schema.list)
    && forall k :: k in schema.hints ==> k == schema.list || k in schema.others
  }

  lemma ReasonLengths(k: string)
    requires k in REASONS
    ensures |k| == 9 || |k| == 11 || |k| == 13
  {
  }

  lemma ResearchLengths(k: string)
    requires k in RESEARCH.others
    ensures |k| == 24 || |k| == 7 || |k| == 25
  {
  }

  lemma WorkspaceLengths(k: string)
    requires k in WORKSPACE.others
    ensures |k| == 14 || |k| == 24 || |k| == 7 || |k| == 25
  {
  }

  lemma ResearchApart()
    ensures Apart(RESEARCH)
  {
    assert |RESEARCH.flag| == 19 && |RESEARCH.list| == 14 && |"reasoning"| == 9;
    forall k | k in RESEARCH.others ensures k != RESEARCH.flag && k != "reasoning" && k != RESEARCH.list {
      ResearchLengths(k);
    }
    forall k | k in REASONS ensures k != RESEARCH.flag && k != RESEARCH.list {
      ReasonLengths(k);
    }
    assert RESEARCH.hints == [RESEARCH.others[0]];
  }

  lemma WorkspaceApart()
    ensures Apart(WORKSPACE)
  {
    assert |WORKSPACE.flag| == 21 && |WORKSPACE.list| == 15 && |"reasoning"| == 9;
    forall k | k in WORKSPACE.others ensures k != WORKSPACE.flag && k != "reasoning" && k != WORKSPACE.list {
      WorkspaceLengths(k);
    }
    forall k | k in REASONS ensures k != WORKSPACE.flag && k != WORKSPACE.list {
      ReasonLengths(k);
    }
    assert WORKSPACE.hints == [WORKSPACE.list, WORKSPACE.others[0]];
  }

  lemma KnownApart(schema: Schema)
    requires Known(schema)
    ensures Apart(schema)
  {
    ResearchApart();
    WorkspaceApart();
  }

  /** Every hint is a name of the list, so a hint never sets the flag of an empty list. */
  lemma HintsFillTheList(schema: Schema, d: Object, render: Json -> string)
    requires Apart(schema)
    ensures Truthy(FirstTruthy(d, schema.hints)) ==> Truthy(ListValue(schema, d, render))
  {
    var names := [schema.list] + schema.others;
    assert forall k :: k in schema.hints ==> k in names;
  }

  /** The list and the reason are the same before and after the flag is set. */
  lemma FlagIsNotRead(schema: Schema, d: Object, v: Json, render: Json -> string)
    requires Apart(schema)
    ensures ListValue(schema, d[schema.flag := v], render) == ListValue(schema, d, render)
    ensures Reason(d[schema.flag := v], render) == Reason(d, render)
  {
    OtherKeys(d, schema.flag, v, [schema.list] + schema.others);
    OtherKeys(d, schema.flag, v, REASONS);
  }

  lemma ListIsNotReason(schema: Schema, d: Object, v: Json, render: Json -> string)
    requires Apart(schema)
    ensures Reason(d[schema.list := v], render) == Reason(d, render)
  {
    OtherKeys(d, schema.list, v, REASONS);
  }

  /** The first step leaves the flag open only where the list decides. */
  lemma EarlyShape(schema: Schema, d: Object, render: Json -> string)
    requires Apart(schema)
    ensures var e, flag := Early(schema, d), FlagValue(schema, d, render);
            if schema.flag in d then e == d && flag == d[schema.flag]
            else if schema.flag in e then e == d[schema.flag := flag]
            else e == d && flag == Bool(Truthy(ListValue(schema, d, render)))
  {
    HintsFillTheList(schema, d, render);
  }

  lemma EarlyAgrees(schema: Schema, d: Object, render: Json -> string)
    requires Apart(schema)
    ensures ListValue(schema, Early(schema, d), render) == ListValue(schema, d, render)
    ensures Reason(Early(schema, d), render) == Reason(d, render)
  {
    EarlyShape(schema, d, render);
    FlagIsNotRead(schema, d, FlagValue(schema, d, render), render);
  }

  /** The steps of the code in order come to the specification. */
  lemma StepsNormalize(schema: Schema, d: Object, render: Json -> string)
    requires Apart(schema)
    ensures Late(schema, WithReason(WithList(schema, Early(schema, d), render), render))
            == Normalized(schema, d, render)
  {
    var e := Early(schema, d);
    EarlyShape(schema, d, render);
    EarlyAgrees(schema, d, render);
    ListIsNotReason(schema, e, ListValue(schema, e, render), render);
    assert "reasoning" in REASONS;
  }

  lemma FirstOfTwo(d: Object, a: string, b: string)
    ensures FirstTruthy(d, [a, b]) == if Truthy(Get(d, a)) then Get(d, a)
                                      else if Truthy(Get(d, b)) then Get(d, b)
                                      else Null
  {
    assert [a, b][1..] == [b];
    assert [b][1..] == [];
  }

  lemma FirstOfReasons(d: Object)
    ensures FirstTruthy(d, REASONS)
            == if Truthy(Get(d, "reasoning")) then Get(d, "reasoning")
               else if Truthy(Get(d, "explanation")) then Get(d, "explanation")
               else if Truthy(Get(d, "justification")) then Get(d, "justification")
               else Null
  {
    assert REASONS[1..] == ["explanation", "justification"];
    FirstOfTwo(d, "explanation", "justification");
  }

  lemma AliasFirst(d: Object, a: Alias, rest: seq<Alias>)
    ensures AliasSays(d, [a] + rest)
            == if a.key in d then (if Truthy(d[a.key]) != a.negated then Yes else No)
               else AliasSays(d, rest)
  {
    assert ([a] + rest)[1..] == rest;
  }

  lemma ResearchEarly(d: Object)
    ensures AliasSays(d, RESEARCH.aliases)
            == if "sufficient_context" in d then (if Truthy(d["sufficient_context"]) then No else Yes)
               else if "needs_more_search" in d then (if Truthy(d["needs_more_search"]) then Yes else No)
               else Unsaid
    ensures FirstTruthy(d, RESEARCH.hints)
            == if Truthy(Get(d, "follow_up_search_queries")) then Get(d, "follow_up_search_queries") else Null
  {
    var last := [Alias("needs_more_search", false)];
    AliasFirst(d, Alias("sufficient_context", true), last);
    AliasFirst(d, Alias("needs_more_search", false), []);
    assert RESEARCH.aliases == [Alias("sufficient_context", true)] + last;
    assert last == [Alias("needs_more_search", false)] + [];
  }

  lemma WorkspaceEarly(d: Object)
    ensures AliasSays(d, WORKSPACE.aliases)
            == if "needs_more_research" in d then (if Truthy(d["needs_more_research"]) then Yes else No)
               else if "sufficient_context" in d then (if Truthy(d["sufficient_context"]) then No else Yes)
               else if "needs_more_search" in d then (if Truthy(d["needs_more_search"]) then Yes else No)
               else Unsaid
    ensures FirstTruthy(d, WORKSPACE.hints)
            == if Truthy(Get(d, "follow_up_hints")) then Get(d, "follow_up_hints")
               else if Truthy(Get(d, "search_queries")) then Get(d, "search_queries")
               else Null
  {
    ResearchEarly(d);
    AliasFirst(d, Alias("needs_more_research", false), RESEARCH.aliases);
    assert WORKSPACE.aliases == [Alias("needs_more_research", false)] + RESEARCH.aliases;
    FirstOfTwo(d, "follow_up_hints", "search_queries");
  }

  // ---- The normalizers -------------------------------------------------------------------------

  /** The part that settles the list; `key` and `alts` differ between the schemas. */
  method NormalizeList(schema: Schema, data: Object, render: Json -> string) returns (d: Object)
    requires Apart(schema)
    ensures d == data[schema.list := ListValue(schema, data, render)]
  {
    d := data;
    var current := Get(d, schema.list);
    if current.Null? {
      current := List([]);
    }
    if !Truthy(current) {
      var i, found := 0, false;
      while i < |schema.others| && !found
        invariant 0 <= i <= |schema.others|
        invariant !found ==>
          && d == data
          && FirstTruthy(data, schema.others) == FirstTruthy(data, schema.others[i..])
        invariant found ==> d == data[schema.list := ListValue(schema, data, render)]
        invariant FirstTruthy(data, [schema.list] + schema.others) == FirstTruthy(data, schema.others)
        decreases |schema.others| - i, !found
      {
        var raw := Get(d, schema.others[i]);
        if Truthy(raw) {
          d := d[schema.list := AsList(raw, render)];
          found := true;
        } else {
          i := i + 1;
        }
      }
      if !found {
        d := d[schema.list := List([])];
      }
    } else {
      d := d[schema.list := AsList(current, render)];
    }
  }

  method NormalizeReason(data: Object, render: Json -> string) returns (d: Object)
    ensures d == data["reasoning" := Str(Reason(data, render))]
  {
    var r := Get(data, "reasoning");
    if !Truthy(r) {
      r := Get(data, "explanation");
    }
    if !Truthy(r) {
      r := Get(data, "justification");
    }
    FirstOfReasons(data);
    d := data["reasoning" := Str(if Truthy(r) then Text.Strip(Shown(r, render)) else NO_REASON)];
  }

  method FlagResearch(data: Object) returns (d: Object)
    ensures d == Early(RESEARCH, data)
  {
    ResearchEarly(data);
    d := data;
    if "needs_more_research" !in d {
      if "sufficient_context" in d {
        d := d["needs_more_research" := Bool(!Truthy(d["sufficient_context"]))];
      } else if "needs_more_search" in d {
        d := d["needs_more_research" := Bool(Truthy(d["needs_more_search"]))];
      } else if Truthy(Get(d, "follow_up_search_queries")) {
        d := d["needs_more_research" := Bool(true)];
      }
    }
  }

  method NormalizeResearch(data: Json, render: Json -> string) returns (out: Json)
    ensures out == if data.Dict? then Dict(Normalized(RESEARCH, data.fields, render)) else data
  {
    if !data.Dict? {
      return data;
    }
    var d := FlagResearch(data.fields);
    ResearchApart();
    StepsNormalize(RESEARCH, data.fields, render);
    d := NormalizeList(RESEARCH, d, render);
    d := NormalizeReason(d, render);
    if "needs_more_research" !in d {
      d := d["needs_more_research" := Bool(Truthy(Get(d, "search_queries")))];
    }
    out := Dict(d);
  }

  method FlagWorkspace(data: Object) returns (d: Object)
    ensures d == Early(WORKSPACE, data)
  {
    WorkspaceEarly(data);
    d := data;
    if "needs_more_tool_calls" !in d {
      if "needs_more_research" in d {
        d := d["needs_more_tool_calls" := Bool(Truthy(d["needs_more_research"]))];
      } else if "sufficient_context" in d {
        d := d["needs_more_tool_calls" := Bool(!Truthy(d["sufficient_context"]))];
      } else if "needs_more_search" in d {
        d := d["needs_more_tool_calls" := Bool(Truthy(d["needs_more_search"]))];
      } else if Truthy(Get(d, "follow_up_hints")) || Truthy(Get(d, "search_queries")) {
        d := d["needs_more_tool_calls" := Bool(true)];
      }
    }
  }

  method NormalizeWorkspace(data: Json, render: Json -> string) returns (out: Json)
    ensures out == if data.Dict? then Dict(Normalized(WORKSPACE, data.fields, render)) else data
  {
    if !data.Dict? {
      return data;
    }
    var d := FlagWorkspace(data.fields);
    WorkspaceApart();
    StepsNormalize(WORKSPACE, data.fields, render);
    d := NormalizeList(WORKSPACE, d, render);
    d := NormalizeReason(d, render);
    if "needs_more_tool_calls" !in d {
      d := d["needs_more_tool_calls" := Bool(Truthy(Get(d, "follow_up_hints")))];
    }
    out := Dict(d);
  }

  // ---- Validation and routing ------------------------------------------------------------------

  datatype Decision = Decision(needsMore: bool, queries: seq<string>)

  function Texts(items: seq<Json>): (r: Option<seq<string>>)
    ensures r.Some? ==> |r.value| == |items|
  {
    if items == [] then Some([])
    else
      match (items[0], Texts(items[1..]))
      case (Str(s), Some(rest)) => Some([s] + rest)
      case _ => None
  }

  /**
   The library's validation: the flag is required and must read as a boolean, the list and the
   reason must be of their types. `asBool` stands for its reading of other values as booleans.
   */
  function Validated(schema: Schema, d: Object, asBool: Json -> Option<bool>): Option<Decision> {
    if schema.flag !in d || !Get(d, schema.list).List? || !Get(d, "reasoning").Str? then None
    else
      match (if d[schema.flag].Bool? then Some(d[schema.flag].value) else asBool(d[schema.flag]),
             Texts(d[schema.list].items))
      case (Some(b), Some(texts)) => Some(Decision(b, texts))
      case _ => None
  }

  /** What the normalised form holds at each of the three keys the schema reads. */
  lemma NormalizedFields(schema: Schema, d: Object, render: Json -> string)
    requires Apart(schema)
    ensures var n := Normalized(schema, d, render);
            && n.Keys == d.Keys + {schema.flag, schema.list, "reasoning"}
            && n[schema.list] == ListValue(schema, d, render)
            && n["reasoning"] == Str(Reason(d, render))
            && n[schema.flag] == FlagValue(schema, d, render)
            && forall k :: k in d && k != schema.flag && k != schema.list && k != "reasoning" ==> n[k] == d[k]
  {
    assert "reasoning" in REASONS;
  }

  /** The names under which an answer may carry an explicit flag. */
  ghost predicate Explicit(schema: Schema, d: Object) {
    schema.flag in d || exists a :: a in schema.aliases && a.key in d
  }

  lemma {:induction false} NoAliasSays(d: Object, aliases: seq<Alias>)
    ensures AliasSays(d, aliases) == Unsaid <==> forall a :: a in aliases ==> a.key !in d
  {
    if aliases != [] {
      NoAliasSays(d, aliases[1..]);
      assert aliases == [aliases[0]] + aliases[1..];
    }
  }

  /** Some name of the list has a truthy value. */
  ghost predicate Listed(schema: Schema, d: Object) {
    exists k :: (k == schema.list || k in schema.others) && Truthy(Get(d, k))
  }

  lemma ListedIsNonempty(schema: Schema, d: Object, render: Json -> string)
    ensures ListValue(schema, d, render).items != [] <==> Listed(schema, d)
  {
    var names := [schema.list] + schema.others;
    assert forall k :: k in names <==> k == schema.list || k in schema.others;
  }

  /** Without an explicit flag, another round is asked for exactly when the list names something. */
  lemma DerivedFlag(schema: Schema, d: Object, render: Json -> string)
    requires Known(schema) && !Explicit(schema, d)
    ensures FlagValue(schema, d, render) == Bool(Listed(schema, d))
  {
    NoAliasSays(d, schema.aliases);
    ListedIsNonempty(schema, d, render);
  }

  /** How a validated answer is routed when no earlier node failed. */
  function RouteOf(decision: Decision): string {
    EvidenceLoop.RouteResearcher("", !decision.needsMore, decision.queries)
  }

  /** The flag's own value, as the library's validation reads it. */
  predicate ReadsTrue(v: Json, asBool: Json -> Option<bool>) {
    if v.Bool? then v.value else asBool(v) == Some(true)
  }

  /** The answer itself asks for another round: by the flag or, without it, by the first other name present. */
  predicate Asks(schema: Schema, d: Object, asBool: Json -> Option<bool>) {
    if schema.flag in d then ReadsTrue(d[schema.flag], asBool) else AliasSays(d, schema.aliases) == Yes
  }

  /**
   Seen on the answer as the model gave it: a valid one leaves the loop without a reply exactly
   when it asks for another round and no name of the list has a truthy value.
   */
  lemma SilentEndIff(schema: Schema, d: Object, render: Json -> string, asBool: Json -> Option<bool>)
    requires Known(schema)
    requires Validated(schema, Normalized(schema, d, render), asBool).Some?
    ensures var decision := Validated(schema, Normalized(schema, d, render), asBool).value;
            && (RouteOf(decision) == "end" <==> Asks(schema, d, asBool) && !Listed(schema, d))
            && (RouteOf(decision) == "end" ==> Explicit(schema, d))
  {
    KnownApart(schema);
    NormalizedFields(schema, d, render);
    ListedIsNonempty(schema, d, render);
    NoAliasSays(d, schema.aliases);
  }

  /** The edge is taken: the answer asks for another round and names no query. */
  lemma SilentEndHappens(render: Json -> string, asBool: Json -> Option<bool>)
    ensures var d := map["sufficient_context" := Bool(false)];
            var decision := Validated(RESEARCH, Normalized(RESEARCH, d, render), asBool);
            decision == Some(Decision(true, [])) && RouteOf(decision.value) == "end"
  {
    var d := map["sufficient_context" := Bool(false)];
    ResearchApart();
    NormalizedFields(RESEARCH, d, render);
    ResearchEarly(d);
    assert |"sufficient_context"| == 18 && |RESEARCH.flag| == 19 && |RESEARCH.list| == 14;
    assert !Listed(RESEARCH, d) by {
      forall k | k in RESEARCH.others ensures k !in d {
        ResearchLengths(k);
      }
    }
    ListedIsNonempty(RESEARCH, d, render);
  }

  // ---- A loop whose validator never sees an explicit flag ---------------------------------------

  /** The verdict was read from an answer without an explicit flag. */
  ghost predicate Derived(schema: Schema, verdict: Decision) {
    exists d: Object, render: Json -> string, asBool: Json -> Option<bool> ::
      Validated(schema, Normalized(schema, d, render), asBool) == Some(verdict) && !Explicit(schema, d)
  }

  ghost predicate AllDerived(schema: Schema, r: Run, base: seq<Message>, setup: Setup) {
    match r
    case Entered => true
    case After(e, i) =>
      && AllDerived(schema, e, base, setup)
      && (State(e, base, "", setup).node == Validate && i.Verdict? ==>
            Derived(schema, Decision(i.needsMore, i.queries)))
  }

  lemma DerivedGoesOn(schema: Schema, verdict: Decision)
    requires Known(schema) && Derived(schema, verdict)
    ensures RouteOf(verdict) == if verdict.needsMore then "search" else "synthesize"
  {
    var d: Object, render: Json -> string, asBool: Json -> Option<bool> :|
      Validated(schema, Normalized(schema, d, render), asBool) == Some(verdict) && !Explicit(schema, d);
    SilentEndIff(schema, d, render, asBool);
  }

  ghost predicate Replied(base: seq<Message>, s: Loop) {
    && s.error == ""
    && (s.node == Done ==> base < s.messages && Plain(s.messages[|s.messages| - 1]))
  }

  lemma VerdictReplied(base: seq<Message>, s: Loop, needsMore: bool, queries: seq<string>, setup: Setup)
    requires Replied(base, s) && s.node == Validate && s.context != []
    requires RouteOf(Decision(needsMore, queries)) != "end"
    ensures Replied(base, Step(s, Verdict(needsMore, queries), setup))
  {
  }

  lemma WriteReplied(base: seq<Message>, s: Loop, m: Message, setup: Setup)
    requires Replied(base, s) && s.node == Synthesize && Plain(m) && New(s.messages, m)
    requires Distinct(s.messages) && "" !in Ids(s.messages) && base <= s.messages
    ensures Replied(base, Step(s, Write(m), setup))
  {
    MergeNew(s.messages, m);
  }

  lemma OtherReplied(base: seq<Message>, s: Loop, input: Input, setup: Setup)
    requires Replied(base, s)
    requires !(s.node == Validate && input.Verdict?) && !(s.node == Synthesize && input.Write?)
    ensures Replied(base, Step(s, input, setup))
  {
  }

  /** Then the loop never ends without a reply, whatever the tools, failures and plans were. */
  lemma {:induction false} NeverEndsSilently(schema: Schema, r: Run, base: seq<Message>, setup: Setup)
    requires Known(schema) && ValidRun(r, base, "", setup) && AllDerived(schema, r, base, setup)
    ensures Replied(base, State(r, base, "", setup))
  {
    match r
    case Entered =>
    case After(e, i) =>
      var s := State(e, base, "", setup);
      NeverEndsSilently(schema, e, base, setup);
      EvidenceComplete(e, base, "", setup);
      if s.node == Validate && i.Verdict? {
        DerivedGoesOn(schema, Decision(i.needsMore, i.queries));
        VerdictReplied(base, s, i.needsMore, i.queries, setup);
      } else if s.node == Synthesize && i.Write? {
        WriteReplied(base, s, i.message, setup);
      } else {
        OtherReplied(base, s, i, setup);
      }
  }

  // ---- Normalising twice -------------------------------------------------------------------------

  /** The reason chosen is blank, so that it counts as missing the second time. */
  ghost predicate BlankReason(d: Object, render: Json -> string) {
    Reason(d, render) == ""
  }

  const FALLBACKS := ["explanation", "justification"]

  function FallbackReason(d: Object, render: Json -> string): string {
    var first := FirstTruthy(d, FALLBACKS);
    if Truthy(first) then Text.Strip(Shown(first, render)) else NO_REASON
  }

  lemma ListIsStable(schema: Schema, d: Object, render: Json -> string)
    requires Apart(schema)
    ensures var n := Normalized(schema, d, render); ListValue(schema, n, render) == n[schema.list]
  {
    var n := Normalized(schema, d, render);
    NormalizedFields(schema, d, render);
    ListedIsNonempty(schema, d, render);
    if n[schema.list].items == [] {
      assert forall k :: k in schema.others ==> Get(n, k) == Get(d, k);
      ListedIsNonempty(schema, n, render);
    }
  }

  lemma SecondReason(schema: Schema, d: Object, render: Json -> string)
    requires Apart(schema)
    ensures Reason(Normalized(schema, d, render), render)
            == if BlankReason(d, render) then FallbackReason(d, render) else Reason(d, render)
  {
    var n := Normalized(schema, d, render);
    NormalizedFields(schema, d, render);
    FirstOfReasons(n);
    FirstOfTwo(n, "explanation", "justification");
    FirstOfTwo(d, "explanation", "justification");
    assert "explanation" in REASONS && "justification" in REASONS;
    assert |"reasoning"| == 9 && |"explanation"| == 11 && |"justification"| == 13;
    assert Text.Strip(Reason(d, render)) == Reason(d, render) by {
      ReasonIsBare(d, render);
    }
  }

  lemma ReasonIsBare(d: Object, render: Json -> string)
    ensures Text.Strip(Reason(d, render)) == Reason(d, render)
  {
    var first := FirstTruthy(d, REASONS);
    if Truthy(first) {
      Text.StripByBare(Shown(first, render), Text.IsSpace);
    } else {
      assert NO_REASON[0] == 'N' && NO_REASON[|NO_REASON| - 1] == '.';
      Text.StripByBare(NO_REASON, Text.IsSpace);
    }
  }

  /** A second pass rewrites at most the reason. */
  lemma SecondPass(schema: Schema, d: Object, n: Object, render: Json -> string)
    requires Apart(schema) && n == Normalized(schema, d, render)
    ensures Normalized(schema, n, render) == n["reasoning" := Str(Reason(n, render))]
  {
    NormalizedFields(schema, d, render);
    ListIsStable(schema, d, render);
    assert {schema.list, schema.flag} <= n.Keys;
    SameAfter(n, schema.list, n[schema.list]);
    assert "reasoning" in REASONS && schema.flag != "reasoning";
    var m := n["reasoning" := Str(Reason(n, render))];
    assert m[schema.flag := n[schema.flag]] == m;
  }

  /** A second normalisation changes nothing exactly when no other reason surfaces behind a blank one. */
  lemma NormalizeTwice(schema: Schema, d: Object, render: Json -> string)
    requires Known(schema)
    ensures var n := Normalized(schema, d, render);
            Normalized(schema, n, render) == n
            <==> (BlankReason(d, render) ==> FallbackReason(d, render) == "")
  {
    KnownApart(schema);
    SecondReason(schema, d, render);
    ReasonField(schema, d, render);
    SecondPass(schema, d, Normalized(schema, d, render), render);
    SameAfter(Normalized(schema, d, render), "reasoning", Str(Reason(Normalized(schema, d, render), render)));
  }

  lemma ReasonField(schema: Schema, d: Object, render: Json -> string)
    requires Apart(schema)
    ensures var n := Normalized(schema, d, render);
            "reasoning" in n && n["reasoning"] == Str(Reason(d, render))
  {
    NormalizedFields(schema, d, render);
  }

  lemma SameAfter(n: Object, key: string, v: Json)
    requires key in n
    ensures n[key := v] == n <==> n[key] == v
  {
    assert n[key] == v ==> n[key := v] == n;
    assert n[key := v][key] == v;
  }

  lemma NormalizeTwiceCanDiffer(render: Json -> string)
    ensures var d := map["reasoning" := Str(" ")];
            var n := Normalized(RESEARCH, d, render);
            n["reasoning"] == Str("") && Normalized(RESEARCH, n, render)["reasoning"] == Str(NO_REASON)
  {
    var d: Object := map["reasoning" := Str(" ")];
    ResearchApart();
    assert Text.Strip(" ") == "";
    FirstOfReasons(d);
    NormalizedFields(RESEARCH, d, render);
    SecondReason(RESEARCH, d, render);
    NormalizedFields(RESEARCH, Normalized(RESEARCH, d, render), render);
    FirstOfTwo(d, "explanation", "justification");
    assert |"reasoning"| == 9 && |"explanation"| == 11 && |"justification"| == 13;
  }

  // ---- The names in order, and the items of the list ----------------------------------------------

  lemma FirstOfMore(d: Object, key: string, rest: seq<string>)
    ensures FirstTruthy(d, [key] + rest) == if Truthy(Get(d, key)) then Get(d, key) else FirstTruthy(d, rest)
  {
    assert ([key] + rest)[1..] == rest;
  }

  /** The research list is the first truthy of these four names. */
  lemma ResearchNames(d: Object)
    ensures FirstTruthy(d, [RESEARCH.list] + RESEARCH.others)
            == if Truthy(Get(d, "search_queries")) then Get(d, "search_queries")
               else if Truthy(Get(d, "follow_up_search_queries")) then Get(d, "follow_up_search_queries")
               else if Truthy(Get(d, "queries")) then Get(d, "queries")
               else if Truthy(Get(d, "additional_search_queries")) then Get(d, "additional_search_queries")
               else Null
  {
    var last := ["queries", "additional_search_queries"];
    FirstOfTwo(d, "queries", "additional_search_queries");
    FirstOfMore(d, "follow_up_search_queries", last);
    assert RESEARCH.others == ["follow_up_search_queries"] + last;
    FirstOfMore(d, "search_queries", RESEARCH.others);
  }

  /** The workspace list is the first truthy of these five names. */
  lemma WorkspaceNames(d: Object)
    ensures FirstTruthy(d, [WORKSPACE.list] + WORKSPACE.others)
            == if Truthy(Get(d, "follow_up_hints")) then Get(d, "follow_up_hints")
               else if Truthy(Get(d, "search_queries")) then Get(d, "search_queries")
               else if Truthy(Get(d, "follow_up_search_queries")) then Get(d, "follow_up_search_queries")
               else if Truthy(Get(d, "queries")) then Get(d, "queries")
               else if Truthy(Get(d, "additional_search_queries")) then Get(d, "additional_search_queries")
               else Null
  {
    ResearchNames(d);
    assert WORKSPACE.others == [RESEARCH.list] + RESEARCH.others;
    FirstOfMore(d, "follow_up_hints", WORKSPACE.others);
  }

  /** The list holds that value's items in their order, or the value itself as one text, or nothing. */
  lemma ListHolds(schema: Schema, d: Object, render: Json -> string)
    ensures var first := FirstTruthy(d, [schema.list] + schema.others);
            ListValue(schema, d, render).items
            == match first
               case Null => []
               case List(items) => items
               case Str(s) => [Str(s)]
               case other => if Truthy(first) then [Str(render(first))] else []
  {
  }

  /** Without the flag's own key the first of its other names present decides, by its truth or its opposite. */
  lemma FlagReads(d: Object, render: Json -> string)
    ensures var f := FlagValue(RESEARCH, d, render);
            if "needs_more_research" in d then f == d["needs_more_research"]
            else if "sufficient_context" in d then f == Bool(!Truthy(d["sufficient_context"]))
            else if "needs_more_search" in d then f == Bool(Truthy(d["needs_more_search"]))
            else f == Bool(ListValue(RESEARCH, d, render).items != [])
    ensures var f := FlagValue(WORKSPACE, d, render);
            if "needs_more_tool_calls" in d then f == d["needs_more_tool_calls"]
            else if "needs_more_research" in d then f == Bool(Truthy(d["needs_more_research"]))
            else if "sufficient_context" in d then f == Bool(!Truthy(d["sufficient_context"]))
            else if "needs_more_search" in d then f == Bool(Truthy(d["needs_more_search"]))
            else f == Bool(ListValue(WORKSPACE, d, render).items != [])
  {
    ResearchEarly(d);
    WorkspaceEarly(d);
  }

  /** Validation takes a list exactly if all items are texts, and then those texts in order. */
  lemma {:induction false} TextsIff(items: seq<Json>)
    ensures Texts(items).Some? <==> forall i :: 0 <= i < |items| ==> items[i].Str?
    ensures Texts(items).Some? ==> forall i :: 0 <= i < |items| ==> items[i] == Str(Texts(items).value[i])
  {
    if items != [] {
      TextsIff(items[1..]);
      assert forall i :: 1 <= i < |items| ==> items[i] == items[1..][i - 1];
      if Texts(items).Some? {
        assert Texts(items).value == [items[0].text] + Texts(items[1..]).value;
      }
    }
  }

  /** A validated decision holds the flag as it reads and the texts of the list. */
  lemma ValidatedHolds(schema: Schema, d: Object, asBool: Json -> Option<bool>)
    ensures var v := Validated(schema, d, asBool);
            v.Some? ==>
              && schema.flag in d && Get(d, schema.list).List? && Get(d, "reasoning").Str?
              && (v.value.needsMore <==> ReadsTrue(d[schema.flag], asBool))
              && Some(v.value.queries) == Texts(d[schema.list].items)
  {
  }

  /** The values that count as false. */
  lemma TruthyIff(v: Json)
    ensures !Truthy(v)
            <==> v == Null || v == Bool(false) || v == Num(0) || v == Str("") || v == List([]) || v == Dict(map[])
  {
  }

  /** The reason is the first truthy of these three, without outer blanks, or these words. */
  lemma ReasonReads(d: Object, render: Json -> string)
    ensures Reason(d, render)
            == if Truthy(Get(d, "reasoning")) then Text.Strip(Shown(Get(d, "reasoning"), render))
               else if Truthy(Get(d, "explanation")) then Text.Strip(Shown(Get(d, "explanation"), render))
               else if Truthy(Get(d, "justification")) then Text.Strip(Shown(Get(d, "justification"), render))
               else "No reasoning provided."
    ensures forall s :: Shown(Str(s), render) == s
  {
    FirstOfReasons(d);
  }
}
