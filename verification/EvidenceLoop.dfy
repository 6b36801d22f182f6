/**
 The plan / tools / collect / validate loop that both the researcher and the workspace
 sub-graph run. Model answers, tool outputs and failures are inputs; every edge is decided
 by the routers below.
 */
module EvidenceLoop {
  import opened Messages
  import Truncation

  datatype Node = Plan | Tools | Collect | Validate | Synthesize | Done

  /** What distinguishes the two sub-graphs: the tool-output cap and the fallback query. */
  datatype Setup = Setup(cap: int, fallback: string)

  /** The channels of the sub-graph; an `error` of "" stands for none. */
  datatype Loop = Loop(node: Node, messages: seq<Message>, context: seq<string>,
                       sufficient: bool, queries: seq<string>, error: string)

  // ---- plan_search / plan_tools ---------------------------------------------------------------

  datatype Attempt = Answer(message: Message) | FormatError | OtherError

  datatype Planned = Answered(message: Message) | Raised

  /** The second attempt is made exactly after a tool-format error in the first. */
  function PlanOutcome(first: Attempt, second: Attempt): Planned {
    match first
    case Answer(m) => Answered(m)
    case OtherError => Raised
    case FormatError => if second.Answer? then Answered(second.message) else Raised
  }

  method PlanWithRetry(attempts: seq<Attempt>) returns (r: Planned, made: nat)
    requires |attempts| == 2
    ensures r == PlanOutcome(attempts[0], attempts[1])
    ensures made == if attempts[0].FormatError? then 2 else 1
    ensures r.Answered? ==> attempts[made - 1] == Answer(r.message)
  {
    made := 0;
    for attempt := 0 to 2
      invariant made == attempt
      invariant attempt >= 1 ==> attempts[0].FormatError?
      invariant attempt < 2
    {
      made := made + 1;
      match attempts[attempt] {
        case Answer(m) => return Answered(m), made;
        case FormatError =>
          if attempt == 1 {
            return Raised, made;
          }
        case OtherError => return Raised, made;
      }
    }
  }

  // ---- The other nodes and the routers ----------------------------------------------------------

  function RouteAfterPlan(ms: seq<Message>): Node {
    if ms != [] && ms[|ms| - 1].calls != [] then Tools else Synthesize
  }

  /** The contents of the run of tool messages at the end of the channel, in order. */
  function TrailingTools(ms: seq<Message>): seq<string> {
    if ms == [] || ms[|ms| - 1].kind != Tool then []
    else TrailingTools(ms[..|ms| - 1]) + [ms[|ms| - 1].content]
  }

  function Reversed(s: seq<string>): (r: seq<string>)
    ensures |r| == |s|
    ensures forall i :: 0 <= i < |s| ==> r[i] == s[|s| - 1 - i]
  {
    seq(|s|, i requires 0 <= i < |s| => s[|s| - 1 - i])
  }

  method CollectContext(ms: seq<Message>) returns (context: seq<string>)
    ensures context == TrailingTools(ms)
  {
    var found: seq<string> := [];
    var i := |ms|;
    assert ms[..i] == ms;
    while i > 0 && ms[i - 1].kind == Tool
      invariant 0 <= i <= |ms|
      invariant TrailingTools(ms) == TrailingTools(ms[..i]) + Reversed(found)
    {
      assert ms[..i][..i - 1] == ms[..i - 1];
      assert Reversed(found + [ms[i - 1].content]) == [ms[i - 1].content] + Reversed(found);
      found := found + [ms[i - 1].content];
      i := i - 1;
    }
    context := Reversed(found);
  }

  /** `route_researcher`. */
  function RouteResearcher(error: string, sufficient: bool, queries: seq<string>): string {
    if error != "" then "end"
    else if sufficient then "synthesize"
    else if queries != [] then "search"
    else "end"
  }

  const VALIDATE_EDGES := map["search" := Plan, "synthesize" := Synthesize, "end" := Done]

  function Capped(outputs: seq<Message>, cap: int): (ms: seq<Message>)
    ensures |ms| == |outputs|
    ensures forall i :: 0 <= i < |ms| ==>
      ms[i] == outputs[i].(content := Truncation.Truncate(outputs[i].content, cap))
  {
    seq(|outputs|, i requires 0 <= i < |outputs| =>
      outputs[i].(content := Truncation.Truncate(outputs[i].content, cap)))
  }

  /**
   What the cap leaves of the tools' answers: whose answers they are stays the same, a text that
   fits is unchanged, and a longer one has the cap's length or, where the cap leaves no room for
   text, is the bare notice.
   */
  lemma CappedOutputs(outputs: seq<Message>, cap: int, i: nat)
    requires i < |outputs|
    ensures var before, after := outputs[i], Capped(outputs, cap)[i];
            && (after.id, after.kind, after.calls) == (before.id, before.kind, before.calls)
            && (after.content == before.content <==>
                  cap <= 0 || |before.content| <= cap || before.content == Truncation.Notice(|before.content| - cap))
            && (0 < cap < |before.content| ==>
                  var d := Truncation.Digits(|before.content| - cap);
                  |after.content| == if cap >= 38 + d then cap else 35 + d)
  {
    var text := outputs[i].content;
    if 0 < cap < |text| {
      Truncation.TruncationSize(text, cap);
      Truncation.TruncationChanges(text, cap);
    }
  }

  function Contents(ms: seq<Message>): (cs: seq<string>)
    ensures |cs| == |ms| && forall i :: 0 <= i < |ms| ==> cs[i] == ms[i].content
  {
    seq(|ms|, i requires 0 <= i < |ms| => ms[i].content)
  }

  // ---- The machine ------------------------------------------------------------------------------

  /** What the environment supplies to the pending node; `Fail` is a node that raised. */
  datatype Input =
    | PlanSays(first: Attempt, second: Attempt)
    | ToolsReturn(outputs: seq<Message>)
    | Proceed
    | Verdict(needsMore: bool, queries: seq<string>)
    | Write(message: Message)
    | Fail

  function Enter(base: seq<Message>, error: string): Loop {
    Loop(Plan, base, [], false, [], error)
  }

  function Step(s: Loop, input: Input, setup: Setup): Loop {
    match (s.node, input)
    case (Plan, PlanSays(first, second)) =>
      (match PlanOutcome(first, second)
       case Raised => s
       case Answered(m) =>
         var ms := Merge(s.messages, [m]);
         s.(messages := ms, node := RouteAfterPlan(ms)))
    case (Tools, ToolsReturn(outputs)) =>
      s.(messages := Merge(s.messages, Capped(outputs, setup.cap)), node := Collect)
    case (Collect, Proceed) =>
      s.(context := s.context + TrailingTools(s.messages), node := Validate)
    case (Validate, Verdict(needsMore, queries)) =>
      var t := if s.context == [] then s.(sufficient := false, queries := [setup.fallback])
               else s.(sufficient := !needsMore, queries := queries);
      var next := RouteResearcher(t.error, t.sufficient, t.queries);
      if next in VALIDATE_EDGES then t.(node := VALIDATE_EDGES[next]) else s
    case (Synthesize, Write(m)) =>
      s.(messages := Merge(s.messages, [m]), node := Done)
    case _ => s
  }

  /** The inputs received since the sub-graph was entered. */
  datatype Run = Entered | After(earlier: Run, input: Input)

  function State(r: Run, base: seq<Message>, error: string, setup: Setup): Loop {
    match r
    case Entered => Enter(base, error)
    case After(e, i) => Step(State(e, base, error, setup), i, setup)
  }

  /** New messages carry ids of their own. */
  ghost predicate New(ms: seq<Message>, m: Message) {
    m.id !in Ids(ms) && m.id != ""
  }

  ghost predicate NewTools(ms: seq<Message>, outputs: seq<Message>) {
    && Fresh(ms, outputs)
    && (forall i :: 0 <= i < |outputs| ==> outputs[i].id != "" && outputs[i].kind == Tool && outputs[i].calls == [])
  }

  ghost predicate PlanAnswer(ms: seq<Message>, a: Attempt) {
    a.Answer? ==> New(ms, a.message) && a.message.kind == Ai
  }

  /** The tool node answers each call of the last message once, in order. */
  ghost predicate ValidInput(s: Loop, input: Input) {
    match (s.node, input)
    case (Plan, PlanSays(first, second)) => PlanAnswer(s.messages, first) && PlanAnswer(s.messages, second)
    case (Tools, ToolsReturn(outputs)) =>
      && NewTools(s.messages, outputs)
      && s.messages != [] && |outputs| == |s.messages[|s.messages| - 1].calls|
    case (Synthesize, Write(m)) => New(s.messages, m) && m.kind == Ai && m.calls == []
    case _ => true
  }

  ghost predicate ValidRun(r: Run, base: seq<Message>, error: string, setup: Setup) {
    match r
    case Entered => Distinct(base) && "" !in Ids(base)
    case After(e, i) => ValidRun(e, base, error, setup) && ValidInput(State(e, base, error, setup), i)
  }

  /** What the tools returned since entry, one entry for each tool message, as the cap leaves it. */
  function Produced(r: Run, base: seq<Message>, error: string, setup: Setup): seq<string> {
    match r
    case Entered => []
    case After(e, i) =>
      Produced(e, base, error, setup) + Output(State(e, base, error, setup), i, setup)
  }

  function Output(s: Loop, input: Input, setup: Setup): seq<string> {
    if s.node == Tools && input.ToolsReturn? then Contents(Capped(input.outputs, setup.cap)) else []
  }

  // ---- The shape of the added messages -----------------------------------------------------------

  /** One round: an AI turn with tool calls and one tool message for each call. */
  datatype Round = Round(ask: Message, answers: seq<Message>)

  ghost predicate Asks(m: Message) { m.kind == Ai && m.calls != [] }

  ghost predicate Plain(m: Message) { m.kind == Ai && m.calls == [] }

  ghost predicate Complete(r: Round) {
    && Asks(r.ask) && |r.answers| == |r.ask.calls|
    && forall i :: 0 <= i < |r.answers| ==> r.answers[i].kind == Tool && r.answers[i].calls == []
  }

  function Flatten(rounds: seq<Round>): seq<Message> {
    if rounds == [] then []
    else Flatten(rounds[..|rounds| - 1]) + [rounds[|rounds| - 1].ask] + rounds[|rounds| - 1].answers
  }

  function Answers(rounds: seq<Round>): seq<string> {
    if rounds == [] then []
    else Answers(rounds[..|rounds| - 1]) + Contents(rounds[|rounds| - 1].answers)
  }

  /** What may follow the complete rounds at each node. */
  ghost predicate Tail(node: Node, rounds: seq<Round>, tail: seq<Message>) {
    match node
    case Plan => tail == []
    case Tools => |tail| == 1 && Asks(tail[0])
    case Collect => rounds != [] && tail == []
    case Validate => rounds != [] && tail == []
    case Synthesize => if tail == [] then rounds != [] else |tail| == 1 && Plain(tail[0])
    case Done =>
      || (tail == [] && rounds != [])
      || (|tail| == 1 && Plain(tail[0]) && rounds != [])
      || (|tail| == 2 && Plain(tail[0]) && Plain(tail[1]))
  }

  ghost predicate Inv(base: seq<Message>, s: Loop, rounds: seq<Round>, tail: seq<Message>) {
    && s.messages == base + Flatten(rounds) + tail
    && Distinct(s.messages) && "" !in Ids(s.messages)
    && (forall i :: 0 <= i < |rounds| ==> Complete(rounds[i]))
    && Tail(s.node, rounds, tail)
    && s.context == Answers(if s.node == Collect then rounds[..|rounds| - 1] else rounds)
  }

  lemma MergeNew(ms: seq<Message>, m: Message)
    requires Distinct(ms) && "" !in Ids(ms) && New(ms, m)
    ensures Merge(ms, [m]) == ms + [m]
    ensures Distinct(ms + [m]) && "" !in Ids(ms + [m])
  {
    MergeAppends(ms, [], [m]);
    assert [] + [m] == [m];
    assert Ids([m]) == {m.id};
    IdsConcat(ms, [m]);
    DistinctConcat(ms, [m]);
  }

  lemma MergeNewTools(ms: seq<Message>, outputs: seq<Message>, cap: int)
    requires Distinct(ms) && "" !in Ids(ms) && NewTools(ms, outputs)
    ensures Merge(ms, Capped(outputs, cap)) == ms + Capped(outputs, cap)
    ensures Distinct(ms + Capped(outputs, cap)) && "" !in Ids(ms + Capped(outputs, cap))
  {
    var capped := Capped(outputs, cap);
    IdsByIndex(capped, outputs);
    assert Fresh(ms, capped);
    MergeAppends(ms, [], capped);
    assert [] + capped == capped;
    IdsConcat(ms, capped);
    DistinctConcat(ms, capped);
  }

  /** Collecting after a round yields that round's answers, no earlier ones. */
  lemma {:induction false} TrailingIsLastRound(front: seq<Message>, ask: Message, answers: seq<Message>)
    requires ask.kind == Ai && forall i :: 0 <= i < |answers| ==> answers[i].kind == Tool
    ensures TrailingTools(front + [ask] + answers) == Contents(answers)
    decreases |answers|
  {
    var ms := front + [ask] + answers;
    if answers == [] {
      assert ms[|ms| - 1] == ask;
    } else {
      var most := answers[..|answers| - 1];
      assert ms[..|ms| - 1] == front + [ask] + most;
      TrailingIsLastRound(front, ask, most);
      assert Contents(answers) == Contents(most) + [answers[|answers| - 1].content];
    }
  }

  lemma PlanStep(base: seq<Message>, s: Loop, rounds: seq<Round>, first: Attempt, second: Attempt, setup: Setup)
    returns (tail: seq<Message>)
    requires Inv(base, s, rounds, []) && s.node == Plan && ValidInput(s, PlanSays(first, second))
    ensures Inv(base, Step(s, PlanSays(first, second), setup), rounds, tail)
  {
    var planned := PlanOutcome(first, second);
    tail := [];
    if planned.Answered? {
      tail := [planned.message];
      MergeNew(s.messages, planned.message);
      assert base + Flatten(rounds) + [] + [planned.message] == base + Flatten(rounds) + tail;
    }
  }

  /** Completing the last round only appends its answers. */
  lemma FlattenAppend(base: seq<Message>, rounds: seq<Round>, r: Round)
    ensures base + Flatten(rounds + [r]) + [] == base + Flatten(rounds) + [r.ask] + r.answers
    ensures Answers(rounds + [r]) == Answers(rounds) + Contents(r.answers)
  {
    assert (rounds + [r])[..|rounds|] == rounds;
  }

  lemma ToolsStep(base: seq<Message>, s: Loop, rounds: seq<Round>, tail: seq<Message>,
                  outputs: seq<Message>, setup: Setup) returns (rounds': seq<Round>)
    requires Inv(base, s, rounds, tail) && s.node == Tools && ValidInput(s, ToolsReturn(outputs))
    ensures Inv(base, Step(s, ToolsReturn(outputs), setup), rounds', [])
    ensures |rounds'| == |rounds| + 1 && rounds'[|rounds|].answers == Capped(outputs, setup.cap)
    ensures rounds'[..|rounds|] == rounds
    ensures Answers(rounds') == Answers(rounds) + Output(s, ToolsReturn(outputs), setup)
  {
    var answers := Capped(outputs, setup.cap);
    var r := Round(tail[0], answers);
    rounds' := rounds + [r];
    assert rounds'[..|rounds|] == rounds;
    assert s.messages[|s.messages| - 1] == tail[0] && tail == [tail[0]];
    assert Complete(r);
    assert Merge(s.messages, answers) == s.messages + answers
           && Distinct(s.messages + answers) && "" !in Ids(s.messages + answers) by {
      MergeNewTools(s.messages, outputs, setup.cap);
    }
    FlattenAppend(base, rounds, r);
  }

  lemma CollectStep(base: seq<Message>, s: Loop, rounds: seq<Round>, setup: Setup)
    requires Inv(base, s, rounds, []) && s.node == Collect
    ensures TrailingTools(s.messages) == Contents(rounds[|rounds| - 1].answers)
    ensures Inv(base, Step(s, Proceed, setup), rounds, [])
  {
    var last := rounds[|rounds| - 1];
    var front := base + Flatten(rounds[..|rounds| - 1]);
    assert s.messages == front + [last.ask] + last.answers;
    TrailingIsLastRound(front, last.ask, last.answers);
  }

  lemma WriteStep(base: seq<Message>, s: Loop, rounds: seq<Round>, tail: seq<Message>, m: Message, setup: Setup)
    requires Inv(base, s, rounds, tail) && s.node == Synthesize && ValidInput(s, Write(m))
    ensures Inv(base, Step(s, Write(m), setup), rounds, tail + [m])
  {
    MergeNew(s.messages, m);
    assert base + Flatten(rounds) + tail + [m] == base + Flatten(rounds) + (tail + [m]);
  }

  /** The fallback for empty evidence is never taken: a round always leaves evidence. */
  lemma EvidenceAtValidate(base: seq<Message>, s: Loop, rounds: seq<Round>, tail: seq<Message>)
    requires Inv(base, s, rounds, tail) && s.node == Validate
    ensures s.context != []
  {
    assert Complete(rounds[|rounds| - 1]);
    assert |Contents(rounds[|rounds| - 1].answers)| >= 1;
  }

  /** A verdict moves on without touching messages or evidence; any other input is ignored. */
  lemma RestStep(base: seq<Message>, s: Loop, rounds: seq<Round>, tail: seq<Message>, input: Input, setup: Setup)
    requires Inv(base, s, rounds, tail)
    requires !(s.node == Plan && input.PlanSays?) && !(s.node == Tools && input.ToolsReturn?)
    requires !(s.node == Collect && input.Proceed?) && !(s.node == Synthesize && input.Write?)
    ensures Inv(base, Step(s, input, setup), rounds, tail)
  {
    if s.node == Validate && input.Verdict? {
      EvidenceAtValidate(base, s, rounds, tail);
      assert tail == [];
    } else {
      assert Step(s, input, setup) == s;
    }
  }

  lemma LoopStep(base: seq<Message>, s: Loop, rounds: seq<Round>, tail: seq<Message>, input: Input, setup: Setup)
    returns (rounds': seq<Round>, tail': seq<Message>)
    requires Inv(base, s, rounds, tail) && ValidInput(s, input)
    ensures Inv(base, Step(s, input, setup), rounds', tail')
    ensures Answers(rounds') == Answers(rounds) + Output(s, input, setup)
  {
    rounds', tail' := rounds, tail;
    if s.node == Plan && input.PlanSays? {
      tail' := PlanStep(base, s, rounds, input.first, input.second, setup);
    } else if s.node == Tools && input.ToolsReturn? {
      rounds' := ToolsStep(base, s, rounds, tail, input.outputs, setup);
      tail' := [];
    } else if s.node == Collect && input.Proceed? {
      CollectStep(base, s, rounds, setup);
    } else if s.node == Synthesize && input.Write? {
      WriteStep(base, s, rounds, tail, input.message, setup);
      tail' := tail + [input.message];
    } else {
      RestStep(base, s, rounds, tail, input, setup);
    }
  }

  /**
   Evidence is exact. After any inputs the added messages are complete rounds and at most a
   plain answer and a synthesis, and the evidence is what the tools produced since entry: in
   order, each once, the round still to be collected aside.
   */
  lemma {:induction false} EvidenceExact(r: Run, base: seq<Message>, error: string, setup: Setup)
    returns (rounds: seq<Round>, tail: seq<Message>)
    requires ValidRun(r, base, error, setup)
    ensures Inv(base, State(r, base, error, setup), rounds, tail)
    ensures Answers(rounds) == Produced(r, base, error, setup)
  {
    match r
    case Entered =>
      rounds, tail := [], [];
      assert base + [] + [] == base;
    case After(e, i) =>
      rounds, tail := EvidenceExact(e, base, error, setup);
      rounds, tail := LoopStep(base, State(e, base, error, setup), rounds, tail, i, setup);
  }

  /** The same without naming the rounds: evidence and pending round make up what was produced. */
  lemma EvidenceComplete(r: Run, base: seq<Message>, error: string, setup: Setup)
    requires ValidRun(r, base, error, setup)
    ensures var s := State(r, base, error, setup);
            && s.context + (if s.node == Collect then TrailingTools(s.messages) else [])
               == Produced(r, base, error, setup)
            && (s.node == Validate ==> s.context != [])
            && base <= s.messages && Distinct(s.messages) && "" !in Ids(s.messages)
            && (s.node == Done ==> |s.messages| > |base|)
  {
    var s := State(r, base, error, setup);
    var rounds, tail := EvidenceExact(r, base, error, setup);
    if s.node == Collect {
      CollectStep(base, s, rounds, setup);
    }
    if s.node == Validate {
      EvidenceAtValidate(base, s, rounds, tail);
    }
  }

  // ---- Where each node leads --------------------------------------------------------------------

  /** Which attempt's message the planner answers with, if any. */
  lemma PlannerAnswersIff(first: Attempt, second: Attempt, m: Message)
    ensures PlanOutcome(first, second) == Answered(m)
            <==> first == Answer(m) || (first == FormatError && second == Answer(m))
    ensures PlanOutcome(first, second) == Raised
            <==> first == OtherError || (first == FormatError && !second.Answer?)
  {
  }

  /** A plan is followed by the tools if it calls some, and by the reply otherwise. */
  lemma PlanLeads(s: Loop, first: Attempt, second: Attempt, m: Message, setup: Setup)
    requires s.node == Plan && Distinct(s.messages) && "" !in Ids(s.messages) && New(s.messages, m)
    requires first == Answer(m) || (first == FormatError && second == Answer(m))
    ensures Step(s, PlanSays(first, second), setup)
            == s.(messages := s.messages + [m], node := if m.calls != [] then Tools else Synthesize)
  {
    MergeNew(s.messages, m);
  }

  /** The tools' capped answers are collected, and the collected ones validated. */
  lemma ToolsLead(s: Loop, outputs: seq<Message>, setup: Setup)
    requires s.node == Tools && Distinct(s.messages) && "" !in Ids(s.messages) && NewTools(s.messages, outputs)
    ensures Step(s, ToolsReturn(outputs), setup)
            == s.(messages := s.messages + Capped(outputs, setup.cap), node := Collect)
  {
    MergeNewTools(s.messages, outputs, setup.cap);
  }

  lemma CollectLeads(s: Loop, setup: Setup)
    requires s.node == Collect
    ensures var t := Step(s, Proceed, setup);
            t == s.(context := t.context, node := Validate) && s.context <= t.context
  {
  }

  /** The reply is appended, and the loop is over. */
  lemma ReplyLeads(s: Loop, m: Message, setup: Setup)
    requires s.node == Synthesize && Distinct(s.messages) && "" !in Ids(s.messages) && New(s.messages, m)
    ensures Step(s, Write(m), setup) == s.(messages := s.messages + [m], node := Done)
  {
    MergeNew(s.messages, m);
  }

  /**
   A verdict on evidence decides the next node: the end after an earlier error; otherwise the
   reply if nothing more is needed, another plan if queries say what, and the end if none do.
   */
  lemma VerdictLeads(s: Loop, needsMore: bool, queries: seq<string>, setup: Setup)
    requires s.node == Validate && s.context != []
    ensures var t := Step(s, Verdict(needsMore, queries), setup);
            && t == s.(node := t.node, sufficient := !needsMore, queries := queries)
            && (s.error != "" ==> t.node == Done)
            && (s.error == "" ==>
                  && (t.node == Synthesize <==> !needsMore)
                  && (t.node == Plan <==> needsMore && queries != [])
                  && (t.node == Done <==> needsMore && queries == []))
  {
  }

  /** An input the pending node does not wait for changes nothing, and neither does a failure. */
  lemma OthersStay(s: Loop, input: Input, setup: Setup)
    requires match s.node
             case Plan => !input.PlanSays?
             case Tools => !input.ToolsReturn?
             case Collect => !input.Proceed?
             case Validate => !input.Verdict?
             case Synthesize => !input.Write?
             case Done => true
    ensures Step(s, input, setup) == s
  {
  }

  lemma {:induction false} ErrorIsKept(r: Run, base: seq<Message>, error: string, setup: Setup)
    ensures State(r, base, error, setup).error == error
  {
    match r
    case Entered =>
    case After(e, i) => ErrorIsKept(e, base, error, setup);
  }

  /**
   In every run a further round is planned only behind a verdict that asks for more by naming
   queries, and the loop goes on to its reply only behind a plan without calls or a verdict that
   needs no more.
   */
  lemma RoundsFollowVerdicts(e: Run, i: Input, base: seq<Message>, error: string, setup: Setup)
    requires ValidRun(After(e, i), base, error, setup)
    ensures var s, t := State(e, base, error, setup), State(After(e, i), base, error, setup);
            && (t.node == Plan && s.node != Plan ==>
                  && s.node == Validate && s.context != [] && error == ""
                  && i.Verdict? && i.needsMore && i.queries != [] && t.queries == i.queries)
            && (t.node == Synthesize && s.node != Synthesize ==>
                  || (s.node == Plan && t.messages != [] && t.messages[|t.messages| - 1].calls == [])
                  || (s.node == Validate && error == "" && i.Verdict? && !i.needsMore))
            && (t.node == Done && s.node != Done ==>
                  || (s.node == Synthesize && i.Write?)
                  || (s.node == Validate && i.Verdict? && (error != "" || (i.needsMore && i.queries == []))))
  {
    var s := State(e, base, error, setup);
    ErrorIsKept(e, base, error, setup);
    EvidenceComplete(e, base, error, setup);
    if s.node == Validate && i.Verdict? {
      VerdictLeads(s, i.needsMore, i.queries, setup);
    } else if s.node == Plan && i.PlanSays? {
      var planned := PlanOutcome(i.first, i.second);
      if planned.Answered? {
        PlanLeads(s, i.first, i.second, planned.message, setup);
      }
    } else if s.node == Tools && i.ToolsReturn? {
      ToolsLead(s, i.outputs, setup);
    } else if s.node == Collect && i.Proceed? {
      CollectLeads(s, setup);
    } else if s.node == Synthesize && i.Write? {
      ReplyLeads(s, i.message, setup);
    } else {
      OthersStay(s, i, setup);
    }
  }
}
