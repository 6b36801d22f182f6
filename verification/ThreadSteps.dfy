/**
 What one step does to a thread, node by node: where it leads, what it appends to the messages,
 and what it leaves alone.
 */
module ThreadSteps {
  import opened Messages
  import opened Routing
  import opened AgentGraph
  import Loop = EvidenceLoop
  import Memory = MemoryManager
  import Text
  import A = ApprovalSafety
  import T = ThreadMemory

  /** The agent the delegator chooses for this answer. */
  function Chosen(t: Thread, answer: string, cfg: Config): string {
    Delegated(answer, cfg.looksLikeLocalTime(LastHumanText(t.sup.messages)), cfg.includeWorkspace)
  }

  /**
   A running delegation without an earlier error goes on exactly where the chosen agent says,
   with nothing else changed; the researcher's loop starts at its plan, on these messages and
   without evidence. After an error it goes to the end.
   */
  lemma DelegationLeads(t: Thread, answer: string, cfg: Config)
    requires t.running && t.pos == Delegate
    ensures var t', agent := Step(t, Advance(Delegates(answer)), cfg), Chosen(t, answer, cfg);
            && t'.sup == t.sup.(nextAgent := agent) && t'.running && t'.spare == t.spare
            && (t.sup.error != "" ==> t'.pos == ErrorHandler)
            && (t.sup.error == "" ==>
                  && agent in {"workspace", "researcher", "chat", "end"}
                  && (t'.pos == HumanReview <==> agent == "workspace")
                  && (t'.pos == Researcher <==> agent == "researcher")
                  && (t'.pos == Node.Chat <==> agent == "chat")
                  && (t'.pos == ErrorHandler <==> agent == "end"))
            && (t'.pos != ErrorHandler ==> t'.master == t.master)
            && (t'.pos == Researcher ==> t'.inner == Loop.Loop(Loop.Plan, t.sup.messages, [], false, [], ""))
  {
    var local := cfg.looksLikeLocalTime(LastHumanText(t.sup.messages));
    DelegationTable(answer, local, cfg.includeWorkspace);
    DelegationRoutes(answer, local, cfg.includeWorkspace, t.sup.error);
  }

  /** What the refusal says. */
  function RefusalText(feedback: string): string {
    if feedback == "" then "That wasn't approved, so we didn't run it."
    else "That wasn't approved, so we didn't run it. Note: " + feedback
  }

  lemma RefusalReads(id: Id, feedback: string)
    ensures Refusal(id, feedback) == Message(id, Ai, RefusalText(feedback), [])
  {
    assert "That wasn't approved, so we didn't run it." + " Note: "
           == "That wasn't approved, so we didn't run it. Note: ";
    assert REFUSAL + (" Note: " + feedback) == REFUSAL + " Note: " + feedback;
    assert feedback == "" ==> REFUSAL + "" == REFUSAL;
  }

  /**
   A review that is resumed, over every history: the approval enters workspace on the messages as
   they are, at its plan and without evidence; any other action appends exactly the refusal, with
   the feedback as its note, and ends the run with the thread holding it.
   */
  lemma ReviewLeads(h: History, action: string, feedback: string, id: Id, cfg: Config, t: Thread, t': Thread)
    requires T.ValidHistory(h, cfg) && t == State(h, cfg) && t.pos == HumanReview
    requires id !in Ids(t.sup.messages) + {""}
    requires t' == State(Then(Then(h, Resume(action, feedback)), Advance(Reviews(id))), cfg)
    ensures t'.running && t'.sup.humanFeedback == action && t'.spare == NoDecision
    ensures action == "approved" ==>
      && t'.pos == Workspace && t'.sup.messages == t.sup.messages && t'.master == t.master
      && t'.inner == Loop.Loop(Loop.Plan, t.sup.messages, [], false, [], "")
    ensures action != "approved" ==>
      && t'.pos == ErrorHandler
      && t'.sup.messages == t.sup.messages + [Message(id, Ai, RefusalText(feedback), [])]
      && t'.master.messages == t'.sup.messages
  {
    T.Reachable(h, cfg);
    assert t.sup.nextAgent == "workspace" by {
      A.Reachable(h, cfg);
    }
    var resumed := Resumed(t, action, feedback, cfg);
    assert State(Then(h, Resume(action, feedback)), cfg) == resumed;
    ReviewEffect(resumed, id, cfg);
    RefusalReads(id, feedback);
  }

  lemma ReviewEffect(t: Thread, id: Id, cfg: Config)
    requires T.Inv(t, cfg) && t.pos == HumanReview && t.spare.Decision? && t.sup.nextAgent == "workspace"
    requires id !in Ids(t.sup.messages) + {""}
    ensures var t', ms := ReviewNode(t, id), t.sup.messages;
            && t'.running == t.running && t'.sup.humanFeedback == t.spare.action && t'.spare == NoDecision
            && (t.spare.action == "approved" ==>
                  && t'.pos == Workspace && t'.sup.messages == ms && t'.master == t.master
                  && t'.inner == Loop.Loop(Loop.Plan, ms, [], false, [], ""))
            && (t.spare.action != "approved" ==>
                  && t'.pos == ErrorHandler && t'.sup.messages == ms + [Refusal(id, t.spare.feedback)]
                  && t'.master.messages == t'.sup.messages)
  {
    var ms := t.sup.messages;
    ReviewRoutes(t.spare.action);
    if t.spare.action == "approved" {
      var none: seq<Message> := [];
      MergeAppends(ms, none, none);
      assert none + none == none && ms + none == ms;
    } else {
      Loop.MergeNew(ms, Refusal(id, t.spare.feedback));
      T.MergeExtension(t.master.messages, ms + [Refusal(id, t.spare.feedback)]);
    }
  }

  // ---- The loops run under their own settings ---------------------------------------------------

  /** The settings of the loop a thread is in. */
  function SetupAt(t: Thread, cfg: Config): Loop.Setup {
    if t.pos == Researcher then cfg.research else cfg.workspace
  }

  /**
   A loop's input that does not raise makes one step of the loop, under the settings of its own
   sub-graph; until the loop is over nothing else changes, and then its messages are the
   supervisor's, which summarises or ends.
   */
  lemma LoopLeads(t: Thread, input: Loop.Input, cfg: Config)
    requires T.Inv(t, cfg) && t.running && t.pos in {Researcher, Workspace} && Loop.ValidInput(t.inner, input)
    requires !Raises(t.inner, input)
    ensures var t' := Step(t, Advance(InLoop(input)), cfg);
            var next := Loop.Step(t.inner, input, SetupAt(t, cfg));
            if next.node != Loop.Done then t' == t.(inner := next)
            else
              && t'.inner == next && t'.sup == t.sup.(messages := next.messages) && t'.running
              && (if Memory.ShouldSummarize(|next.messages|, cfg.policy)
                  then t'.pos == MemoryManager && t'.master == t.master
                  else t'.pos == ErrorHandler && t'.master.messages == next.messages)
  {
    var setup := SetupAt(t, cfg);
    T.InnerStep(t.sup.messages, t.inner, input, setup);
    LoopEnds(t, Loop.Step(t.inner, input, setup), cfg);
  }

  lemma LoopEnds(t: Thread, next: Loop.Loop, cfg: Config)
    requires T.Inv(t, cfg) && t.pos in {Researcher, Workspace} && t.sup.messages <= next.messages
    requires T.Sound(next.messages) && Merge(t.sup.messages, next.messages) == next.messages
    ensures var t' := LoopMoves(t, next, cfg);
            if next.node != Loop.Done then t' == t.(inner := next)
            else
              && t'.inner == next && t'.sup == t.sup.(messages := next.messages) && t'.running == t.running
              && (if Memory.ShouldSummarize(|next.messages|, cfg.policy)
                  then t'.pos == MemoryManager && t'.master == t.master
                  else t'.pos == ErrorHandler && t'.master.messages == next.messages)
  {
    T.MergeExtension(t.master.messages, next.messages);
  }

  /** An input that raises stops the thread where it is, as any failure does. */
  lemma FailureStays(t: Thread, input: Loop.Input, cfg: Config)
    ensures t.running && t.pos in {Researcher, Workspace} && Raises(t.inner, input) ==>
      Step(t, Advance(InLoop(input)), cfg) == t.(running := false)
    ensures Step(t, Crash, cfg) == t.(running := false)
    ensures Raises(t.inner, input)
            <==> || input == Loop.Fail
                 || (t.inner.node == Loop.Plan && input.PlanSays?
                     && (input.first == Loop.OtherError || (input.first == Loop.FormatError && !input.second.Answer?)))
  {
    if input.PlanSays? && input.first.Answer? {
      Loop.PlannerAnswersIff(input.first, input.second, input.first.message);
    } else if input.PlanSays? && input.second.Answer? {
      Loop.PlannerAnswersIff(input.first, input.second, input.second.message);
    }
  }

  // ---- The other nodes ------------------------------------------------------------------------------

  /** A chat reply is appended, and the supervisor summarises or ends. */
  lemma ChatLeads(t: Thread, m: Message, cfg: Config)
    requires T.Inv(t, cfg) && t.running && t.pos == Node.Chat && Loop.New(t.sup.messages, m)
    ensures var t' := Step(t, Advance(Replies(m)), cfg);
            && t'.sup == t.sup.(messages := t.sup.messages + [m]) && t'.running
            && if Memory.ShouldSummarize(|t.sup.messages| + 1, cfg.policy)
               then t'.pos == MemoryManager && t'.master == t.master
               else t'.pos == ErrorHandler && t'.master.messages == t.sup.messages + [m]
  {
    Loop.MergeNew(t.sup.messages, m);
    T.MergeExtension(t.master.messages, t.sup.messages + [m]);
  }

  /** In every history the error handler finds no error: it ends the run and adds nothing. */
  lemma HandlerLeads(h: History, id: Id, cfg: Config)
    requires T.ValidHistory(h, cfg) && State(h, cfg).pos == ErrorHandler && State(h, cfg).running
    ensures State(Then(h, Advance(Handles(id))), cfg) == State(h, cfg).(pos := Idle, running := false)
  {
    T.Reachable(h, cfg);
  }

  /** An invocation appends its turn to the stored thread and starts a run with all else reset. */
  lemma InvocationLeads(t: Thread, m: Message, cfg: Config)
    requires T.Inv(t, cfg) && Loop.New(t.master.messages, m)
    ensures var t' := Step(t, Invoke(m), cfg);
            && t'.pos == Delegate && t'.running && t'.spare == NoDecision && t'.sup == t'.master
            && t'.master == Channels(t.master.messages + [m], "", "", "")
  {
    T.InvokeInv(t, m, cfg);
  }

  /** A resume is ignored unless a node is pending; the decision waits for a pending review. */
  lemma ResumeLeads(t: Thread, action: string, feedback: string, cfg: Config)
    ensures var t' := Step(t, Resume(action, feedback), cfg);
            if t.pos == Idle then t' == t
            else
              && t' == t.(running := true, spare := t'.spare)
              && (t.pos == HumanReview || cfg.keepsResume ==> t'.spare == Decision(action, feedback))
              && (t.pos != HumanReview && !cfg.keepsResume ==> t'.spare == NoDecision)
  {
  }

  // ---- The researcher can be reached ----------------------------------------------------------------

  lemma ResearcherIsCanonical()
    ensures Canonical("researcher") == "researcher"
  {
    var r := "researcher";
    assert r[0] == 'r' && r[|r| - 1] == 'r';
    Text.StripByBare(r, Text.IsSpace);
    assert Text.Strip(r) == r;
  }

  /** Every invoked thread can go on to the researcher, whose loop then starts on its messages. */
  lemma ResearcherIsReachable(m: Message, cfg: Config) returns (h: History)
    requires m.id != ""
    ensures T.ValidHistory(h, cfg) && State(h, cfg).pos == Researcher && State(h, cfg).running
    ensures State(h, cfg).inner == Loop.Loop(Loop.Plan, [m], [], false, [], "")
  {
    var invoked := Then(Start, Invoke(m));
    T.Reachable(Start, cfg);
    assert T.ValidHistory(invoked, cfg);
    InvocationLeads(NEW_THREAD, m, cfg);
    var t := State(invoked, cfg);
    assert t.sup.messages == [m];
    h := Then(invoked, Advance(Delegates("researcher")));
    ResearcherIsCanonical();
    DelegationTable("researcher", cfg.looksLikeLocalTime(LastHumanText(t.sup.messages)), cfg.includeWorkspace);
    DelegationLeads(t, "researcher", cfg);
  }
}
