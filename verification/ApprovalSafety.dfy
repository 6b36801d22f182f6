/** When the workspace sub-graph may run, over every history of a thread. */
module ApprovalSafety {
  import opened Routing
  import opened AgentGraph
  import Messages
  import Loop = EvidenceLoop
  import Text

  /** What every reachable thread satisfies about approval; no node ever sets `error`. */
  ghost predicate Inv(t: Thread, cfg: Config) {
    && t.master.error == "" && t.sup.error == ""
    && (t.pos in {Delegate, HumanReview, Researcher, Chat} ==> t.sup.humanFeedback == "")
    && (t.pos == HumanReview ==> t.sup.nextAgent == "workspace" && cfg.includeWorkspace)
    && (t.pos == Workspace ==>
          t.sup.nextAgent == "workspace" && t.sup.humanFeedback == APPROVED && cfg.includeWorkspace)
    && (t.pos == Researcher ==> t.sup.nextAgent == "researcher")
    && (t.pos == Chat ==> t.sup.nextAgent == "chat")
  }

  /** The order in which nodes are visited between two invocations. */
  function Rank(n: Node): nat {
    match n
    case Delegate => 0
    case HumanReview => 1
    case Researcher => 2
    case Workspace => 2
    case Chat => 2
    case MemoryManager => 3
    case ErrorHandler => 4
    case Idle => 5
  }

  /** What one completed node keeps; the pending node only moves on to a higher rank. */
  ghost predicate Good(t: Thread, t': Thread, cfg: Config) {
    && Inv(t', cfg)
    && (t.pos == t'.pos || Rank(t.pos) < Rank(t'.pos))
    && (t'.spare == t.spare || t'.spare == NoDecision)
    && (t'.pos == Workspace && t.pos != Workspace ==>
          t.pos == HumanReview && t.spare.Decision? && t.spare.action == APPROVED && t'.spare == NoDecision)
  }

  lemma DelegateGood(t: Thread, answer: string, cfg: Config)
    requires Inv(t, cfg) && t.pos == Delegate
    ensures Good(t, DelegateNode(t, answer, cfg), cfg)
  {
    var local := cfg.looksLikeLocalTime(LastHumanText(t.sup.messages));
    DelegationTable(answer, local, cfg.includeWorkspace);
    DelegationRoutes(answer, local, cfg.includeWorkspace, t.sup.error);
  }

  lemma ReviewGood(t: Thread, noteId: string, cfg: Config)
    requires Inv(t, cfg) && t.pos == HumanReview
    ensures Good(t, ReviewNode(t, noteId), cfg)
  {
    if t.spare.Decision? {
      ReviewRoutes(t.spare.action);
    }
  }

  lemma LoopGood(t: Thread, input: Loop.Input, setup: Loop.Setup, cfg: Config)
    requires Inv(t, cfg) && t.pos in {Researcher, Workspace}
    ensures Good(t, LoopNode(t, input, setup, cfg), cfg)
  {
  }

  lemma MemoryGood(t: Thread, id: string, text: string, cfg: Config)
    requires Inv(t, cfg) && t.pos == MemoryManager
    ensures Good(t, MemoryNode(t, id, text, cfg), cfg)
  {
  }

  lemma AdvancedGood(t: Thread, o: Outcome, cfg: Config)
    requires Inv(t, cfg)
    ensures Good(t, Advanced(t, o, cfg), cfg)
    ensures t.pos == HumanReview && Advanced(t, o, cfg).pos == Workspace ==> o.Reviews?
  {
    match (t.pos, o)
    case (Delegate, Delegates(answer)) => DelegateGood(t, answer, cfg);
    case (HumanReview, Reviews(noteId)) => ReviewGood(t, noteId, cfg);
    case (Researcher, InLoop(input)) => LoopGood(t, input, cfg.research, cfg);
    case (Workspace, InLoop(input)) => LoopGood(t, input, cfg.workspace, cfg);
    case (MemoryManager, Summarises(id, text)) => MemoryGood(t, id, text, cfg);
    case _ =>
  }

  lemma StepInv(t: Thread, e: Event, cfg: Config)
    requires Inv(t, cfg)
    ensures Inv(Step(t, e, cfg), cfg)
    ensures !e.Invoke? && t.pos != Step(t, e, cfg).pos ==> Rank(t.pos) < Rank(Step(t, e, cfg).pos)
    ensures !(e.Resume? && IsPaused(t)) ==> Step(t, e, cfg).spare == t.spare || Step(t, e, cfg).spare == NoDecision
  {
    if e.Advance? {
      AdvancedGood(t, e.outcome, cfg);
    }
  }

  lemma {:induction false} Reachable(h: History, cfg: Config)
    ensures Inv(State(h, cfg), cfg)
  {
    match h
    case Start =>
    case Then(e, ev) =>
      Reachable(e, cfg);
      StepInv(State(e, cfg), ev, cfg);
  }

  // ---- Stretches of a history without a new invocation ------------------------------------------

  /** `h` continues `a`, and nothing in between is an invocation. */
  ghost predicate Continues(a: History, h: History) {
    a == h || (h.Then? && !h.event.Invoke? && Continues(a, h.earlier))
  }

  lemma {:induction false} ContinuesOn(a: History, b: History, c: History)
    requires Continues(a, b) && Continues(b, c)
    ensures Continues(a, c)
    decreases c
  {
    if b != c {
      ContinuesOn(a, b, c.earlier);
    }
  }

  lemma {:induction false} RankGrows(a: History, h: History, cfg: Config)
    requires Continues(a, h)
    ensures Rank(State(a, cfg).pos) <= Rank(State(h, cfg).pos)
    decreases h
  {
    if a != h {
      RankGrows(a, h.earlier, cfg);
      Reachable(h.earlier, cfg);
      StepInv(State(h.earlier, cfg), h.event, cfg);
    }
  }

  // ---- The events the property speaks about --------------------------------------------------------

  /** The last event of `h` made the supervisor graph enter the workspace sub-graph. */
  ghost predicate Enters(h: History, cfg: Config) {
    h.Then? && State(h.earlier, cfg).pos != Workspace && State(h, cfg).pos == Workspace
  }

  /** The last event of `h` completed the workspace sub-graph. */
  ghost predicate Completes(h: History, cfg: Config) {
    h.Then? && !h.event.Invoke? && State(h.earlier, cfg).pos == Workspace && State(h, cfg).pos != Workspace
  }

  /** The last event of `h` is an accepted resume with this action. */
  ghost predicate ResumesWith(h: History, action: string, cfg: Config) {
    h.Then? && h.event.Resume? && h.event.action == action && IsPaused(State(h.earlier, cfg))
  }

  /** The last event of `h` is the delegation that chose workspace. */
  ghost predicate ChoosesWorkspace(h: History, cfg: Config) {
    && h.Then? && h.event.Advance? && h.event.outcome.Delegates?
    && State(h.earlier, cfg).pos == Delegate && State(h, cfg).pos == HumanReview
  }

  /** A thread at the review has had its delegation since the last invocation. */
  lemma {:induction false} ReviewIsDelegated(h: History, cfg: Config) returns (d: History)
    requires State(h, cfg).pos == HumanReview
    ensures ChoosesWorkspace(d, cfg) && Continues(d, h)
    decreases h
  {
    Reachable(h.earlier, cfg);
    StepInv(State(h.earlier, cfg), h.event, cfg);
    if State(h.earlier, cfg).pos == HumanReview {
      d := ReviewIsDelegated(h.earlier, cfg);
    } else {
      d := h;
    }
  }

  /** A decision that waits to be consumed came with a resume since the last invocation. */
  lemma {:induction false} DecisionIsResumed(h: History, cfg: Config) returns (r: History)
    requires State(h, cfg).spare.Decision?
    ensures ResumesWith(r, State(h, cfg).spare.action, cfg) && Continues(r, h)
    ensures State(r.earlier, cfg).pos == HumanReview || cfg.keepsResume
    decreases h
  {
    var before := State(h.earlier, cfg);
    if h.event.Resume? && IsPaused(before) {
      r := h;
    } else {
      Reachable(h.earlier, cfg);
      StepInv(before, h.event, cfg);
      r := DecisionIsResumed(h.earlier, cfg);
    }
  }

  /** What justifies the entry at `h`: a delegation `d` and an approving resume `r`. */
  ghost predicate Justified(h: History, d: History, r: History, cfg: Config) {
    && ChoosesWorkspace(d, cfg) && ResumesWith(r, APPROVED, cfg)
    && Continues(d, h) && Continues(r, h)
    && (!cfg.keepsResume || State(r.earlier, cfg).pos == HumanReview ==>
          State(r.earlier, cfg).pos == HumanReview && Continues(d, r.earlier))
  }

  /**
   Approval safety. Workspace is entered only from the review, and only by consuming an
   approval that was resumed since the last invocation; and that approval was given after
   the delegation that chose workspace, whenever the thread was waiting at the review.
   */
  lemma WorkspaceIsApproved(h: History, cfg: Config) returns (d: History, r: History)
    requires Enters(h, cfg)
    ensures State(h.earlier, cfg).pos == HumanReview && cfg.includeWorkspace
    ensures Justified(h, d, r, cfg)
    ensures State(h, cfg).spare == NoDecision
  {
    var before := State(h.earlier, cfg);
    Reachable(h.earlier, cfg);
    StepInv(before, h.event, cfg);
    EntryComesFromReview(before, h.event, cfg);
    r := DecisionIsResumed(h.earlier, cfg);
    if State(r.earlier, cfg).pos == HumanReview {
      d := ReviewIsDelegated(r.earlier, cfg);
      ContinuesOn(d, r.earlier, r);
      ContinuesOn(d, r, h.earlier);
    } else {
      d := ReviewIsDelegated(h.earlier, cfg);
    }
  }

  lemma EntryComesFromReview(t: Thread, e: Event, cfg: Config)
    requires Inv(t, cfg) && t.pos != Workspace && Step(t, e, cfg).pos == Workspace
    ensures e.Advance? && t.running && t.pos == HumanReview && e.outcome.Reviews?
    ensures t.spare.Decision? && t.spare.action == APPROVED
    ensures Step(t, e, cfg).spare == NoDecision
  {
    if e.Advance? {
      AdvancedGood(t, e.outcome, cfg);
    }
  }

  /** Between two entries there is always a new invocation, so no approval serves twice. */
  lemma OneEntryPerInvocation(a: History, b: History, cfg: Config)
    requires Enters(a, cfg) && Enters(b, cfg) && a != b
    ensures !Continues(a, b)
  {
    if Continues(a, b) {
      RankGrows(a, b.earlier, cfg);
      var _, _ := WorkspaceIsApproved(b, cfg);
    }
  }

  /** Nor is it completed twice, whatever fails and is resumed in between. */
  lemma OneCompletionPerInvocation(a: History, b: History, cfg: Config)
    requires Completes(a, cfg) && Completes(b, cfg) && a != b
    ensures !Continues(a, b)
  {
    if Continues(a, b) {
      Reachable(a.earlier, cfg);
      StepInv(State(a.earlier, cfg), a.event, cfg);
      RankGrows(a, b.earlier, cfg);
    }
  }

  /** A completion belongs to an entry since the last invocation. */
  lemma {:induction false} InsideWasEntered(h: History, cfg: Config) returns (n: History)
    requires State(h, cfg).pos == Workspace
    ensures Enters(n, cfg) && Continues(n, h)
    decreases h
  {
    if State(h.earlier, cfg).pos == Workspace {
      n := InsideWasEntered(h.earlier, cfg);
    } else {
      n := h;
      Reachable(h.earlier, cfg);
      EntryComesFromReview(State(h.earlier, cfg), h.event, cfg);
    }
  }

  /** Each completed execution has its own approval since the last invocation. */
  lemma CompletionIsApproved(h: History, cfg: Config) returns (d: History, r: History)
    requires Completes(h, cfg)
    ensures ChoosesWorkspace(d, cfg) && ResumesWith(r, APPROVED, cfg)
    ensures Continues(d, h) && Continues(r, h)
  {
    var n := InsideWasEntered(h.earlier, cfg);
    d, r := WorkspaceIsApproved(n, cfg);
    ContinuesOn(d, n, h.earlier);
    ContinuesOn(r, n, h.earlier);
  }

  /** The delegation that chose workspace came before the last event of `r`. */
  ghost predicate ChosenBefore(r: History, cfg: Config) {
    r.Then? && exists d :: ChoosesWorkspace(d, cfg) && Continues(d, r.earlier)
  }

  /** A resume since the last invocation follows the delegation exactly if the review was waiting. */
  lemma ResumeFollowsIff(h: History, r: History, cfg: Config)
    requires Enters(h, cfg) && Continues(r, h) && r.Then? && r.event.Resume?
    ensures ChosenBefore(r, cfg) <==> State(r.earlier, cfg).pos == HumanReview
  {
    var _, _ := WorkspaceIsApproved(h, cfg);
    assert r != h by {
      Reachable(h.earlier, cfg);
      EntryComesFromReview(State(h.earlier, cfg), h.event, cfg);
    }
    assert Continues(r.earlier, r);
    ContinuesOn(r.earlier, r, h.earlier);
    RankGrows(r.earlier, h.earlier, cfg);
    if State(r.earlier, cfg).pos == HumanReview {
      var _ := ReviewIsDelegated(r.earlier, cfg);
    }
    forall d | ChoosesWorkspace(d, cfg) && Continues(d, r.earlier)
      ensures State(r.earlier, cfg).pos == HumanReview
    {
      RankGrows(d, r.earlier, cfg);
    }
  }

  /** Some approval since the last invocation was given after workspace had been chosen. */
  ghost predicate SafeEntry(h: History, cfg: Config) {
    exists r :: Continues(r, h) && ResumesWith(r, APPROVED, cfg) && ChosenBefore(r, cfg)
  }

  /** Every entry is safe exactly if resume values are not kept, or workspace is not bound at all. */
  lemma AllEntriesSafeIff(cfg: Config)
    ensures (forall h :: Enters(h, cfg) ==> SafeEntry(h, cfg)) <==> !(cfg.keepsResume && cfg.includeWorkspace)
  {
    if cfg.keepsResume && cfg.includeWorkspace {
      WorkspaceIsCanonical();
      var h := KeptApproval(cfg, Messages.Message("m", Messages.Human, "", []), "workspace", "n");
      assert Enters(h, cfg) && !SafeEntry(h, cfg);
    } else {
      forall h | Enters(h, cfg)
        ensures SafeEntry(h, cfg)
      {
        var d, r := WorkspaceIsApproved(h, cfg);
        assert Justified(h, d, r, cfg) && ChosenBefore(r, cfg);
      }
    }
  }

  lemma WorkspaceIsCanonical()
    ensures Canonical("workspace") == "workspace"
  {
    var w := "workspace";
    assert w[0] == 'w' && w[|w| - 1] == 'e';
    Text.StripByBare(w, Text.IsSpace);
    assert Text.Strip(w) == w;
  }

  /**
   The condition is needed: where a resume value is kept, one handed to a thread whose
   delegation had failed is consumed by the review that follows, and none was given after it.
   */
  lemma KeptApproval(cfg: Config, m: Messages.Message, answer: string, noteId: string) returns (h: History)
    requires cfg.keepsResume && cfg.includeWorkspace && Canonical(answer) == "workspace"
    ensures Enters(h, cfg) && !SafeEntry(h, cfg)
    ensures forall r :: Continues(r, h) && ResumesWith(r, APPROVED, cfg) ==> State(r.earlier, cfg).pos == Delegate
  {
    var invoked := Then(Start, Invoke(m));
    var failed := Then(invoked, Crash);
    var resumed := Then(failed, Resume(APPROVED, ""));
    var chosen := Then(resumed, Advance(Delegates(answer)));
    h := Then(chosen, Advance(Reviews(noteId)));
    var local := cfg.looksLikeLocalTime(LastHumanText(State(resumed, cfg).sup.messages));
    DelegationRoutes(answer, local, true, "");
    DelegationTable(answer, local, true);
    assert State(invoked, cfg) == Invoked(State(Start, cfg), m);
    assert State(failed, cfg).pos == Delegate && State(failed, cfg).sup.error == "";
    assert State(resumed, cfg).pos == Delegate && State(resumed, cfg).running;
    assert State(chosen, cfg).pos == HumanReview && State(chosen, cfg).spare == Decision(APPROVED, "");
    ReviewRoutes(APPROVED);
    assert State(h, cfg).pos == Workspace;
    forall r | Continues(r, h) && ResumesWith(r, APPROVED, cfg)
      ensures r == resumed && !ChosenBefore(r, cfg)
    {
      OnlyResume(r, m, Advance(Delegates(answer)), Advance(Reviews(noteId)));
      ResumeFollowsIff(h, r, cfg);
    }
  }

  lemma OnlyResume(r: History, m: Messages.Message, a: Event, b: Event)
    requires a.Advance? && b.Advance? && r.Then? && r.event.Resume?
    requires Continues(r, Then(Then(Then(Then(Then(Start, Invoke(m)), Crash), Resume(APPROVED, "")), a), b))
    ensures r == Then(Then(Then(Start, Invoke(m)), Crash), Resume(APPROVED, ""))
  {
    var invoked := Then(Start, Invoke(m));
    var failed := Then(invoked, Crash);
    var resumed := Then(failed, Resume(APPROVED, ""));
    assert Continues(r, Then(resumed, a)) ==> r == Then(resumed, a) || Continues(r, resumed);
    assert Continues(r, resumed) ==> r == resumed || Continues(r, failed);
    assert Continues(r, failed) ==> r == failed || Continues(r, invoked);
    assert Continues(r, invoked) ==> r == invoked;
  }

  // ---- What an approval and a rejection achieve -------------------------------------------------

  /** A thread that waits at the review enters workspace once it is resumed with the approval. */
  lemma ApprovalLeadsIn(h: History, cfg: Config, feedback: string, noteId: string) returns (h': History)
    requires State(h, cfg).pos == HumanReview
    ensures h' == Then(Then(h, Resume(APPROVED, feedback)), Advance(Reviews(noteId)))
    ensures Enters(h', cfg) && Continues(h, h') && State(h', cfg).running
  {
    var resumed := Then(h, Resume(APPROVED, feedback));
    h' := Then(resumed, Advance(Reviews(noteId)));
    Reachable(h, cfg);
    ReviewRoutes(APPROVED);
    assert State(resumed, cfg) == State(h, cfg).(running := true, spare := Decision(APPROVED, feedback));
    assert Continues(h, resumed);
  }

  /** Workspace is entered in some history exactly if it is bound, whatever becomes of resume values. */
  lemma WorkspaceIsReachableIff(cfg: Config)
    ensures cfg.includeWorkspace <==> exists h :: Enters(h, cfg)
  {
    if cfg.includeWorkspace {
      var invoked := Then(Start, Invoke(Messages.Message("m", Messages.Human, "", [])));
      var chosen := Then(invoked, Advance(Delegates("workspace")));
      var local := cfg.looksLikeLocalTime(LastHumanText(State(invoked, cfg).sup.messages));
      WorkspaceIsCanonical();
      DelegationRoutes("workspace", local, true, "");
      DelegationTable("workspace", local, true);
      assert State(invoked, cfg).pos == Delegate && State(invoked, cfg).running && State(invoked, cfg).sup.error == "";
      assert State(chosen, cfg).pos == HumanReview;
      var h := ApprovalLeadsIn(chosen, cfg, "", "n");
      assert Enters(h, cfg);
    } else {
      forall h | Enters(h, cfg)
        ensures false
      {
        var _, _ := WorkspaceIsApproved(h, cfg);
      }
    }
  }

  /** `h` continues `a` without any further call: nodes complete or fail. */
  ghost predicate Quiet(a: History, h: History) {
    a == h || (h.Then? && (h.event.Advance? || h.event.Crash?) && Quiet(a, h.earlier))
  }

  ghost predicate Rejects(h: History, action: string, cfg: Config) {
    ResumesWith(h, action, cfg) && action != APPROVED
  }

  /** What a call that began with a rejection can still be waiting with. */
  lemma {:induction false} RejectionIsKept(r: History, h: History, action: string, cfg: Config)
    requires Rejects(r, action, cfg) && Quiet(r, h)
    ensures State(h, cfg).spare.Decision? ==> State(h, cfg).spare.action == action
    ensures State(h, cfg).pos == Workspace ==> State(r.earlier, cfg).pos == Workspace
    ensures Rank(State(r.earlier, cfg).pos) <= Rank(State(h, cfg).pos)
    ensures Rank(State(h, cfg).pos) <= 1 ==>
      State(h, cfg).spare.Decision? == (State(r.earlier, cfg).pos == HumanReview || cfg.keepsResume)
    decreases h
  {
    if r != h {
      var t := State(h.earlier, cfg);
      RejectionIsKept(r, h.earlier, action, cfg);
      Reachable(h.earlier, cfg);
      StepInv(t, h.event, cfg);
      QuietStep(t, h.event, cfg);
    }
  }

  lemma QuietStep(t: Thread, e: Event, cfg: Config)
    requires Inv(t, cfg) && (e.Advance? || e.Crash?)
    ensures var t' := Step(t, e, cfg);
            && (t'.spare == t.spare || t'.spare == NoDecision)
            && (Rank(t'.pos) <= 1 ==> t'.spare == t.spare)
            && (t'.pos == Workspace && t.pos != Workspace ==> t.spare.Decision? && t.spare.action == APPROVED)
  {
    if e.Advance? && t.running {
      AdvancedGood(t, e.outcome, cfg);
      if t.pos == HumanReview {
        ReviewSpare(t, e.outcome, cfg);
      }
    }
  }

  lemma ReviewSpare(t: Thread, o: Outcome, cfg: Config)
    requires Inv(t, cfg) && t.pos == HumanReview
    ensures Rank(Advanced(t, o, cfg).pos) <= 1 ==> Advanced(t, o, cfg).spare == t.spare
  {
    if o.Reviews? && t.spare.Decision? {
      ReviewRoutes(t.spare.action);
    }
  }

  /**
   Whether a rejection keeps workspace from running on in its call: exactly if the thread was not
   already at workspace, where it had been approved before.
   */
  lemma RejectionBlocksIff(r: History, action: string, cfg: Config)
    requires Rejects(r, action, cfg)
    ensures (forall h :: Quiet(r, h) ==> State(h, cfg).pos != Workspace) <==> State(r.earlier, cfg).pos != Workspace
  {
    if State(r.earlier, cfg).pos == Workspace {
      assert Quiet(r, r) && State(r, cfg).pos == Workspace;
    } else {
      forall h | Quiet(r, h)
        ensures State(h, cfg).pos != Workspace
      {
        RejectionIsKept(r, h, action, cfg);
      }
    }
  }

  /**
   Whether a review reached in that call takes the rejection and ends the run: exactly if the
   thread was waiting at the review, or the value is kept for it; otherwise the review asks anew.
   */
  lemma RejectionEndsIff(r: History, h: History, action: string, cfg: Config, noteId: string)
    requires Rejects(r, action, cfg) && Quiet(r, h)
    requires State(h, cfg).pos == HumanReview && State(h, cfg).running
    ensures var t' := State(Then(h, Advance(Reviews(noteId))), cfg);
            if State(r.earlier, cfg).pos == HumanReview || cfg.keepsResume
            then t'.pos == ErrorHandler && t'.sup.humanFeedback == action
            else t'.pos == HumanReview && !t'.running
  {
    Reachable(h, cfg);
    RejectionIsKept(r, h, action, cfg);
    ReviewRoutes(action);
  }

  /** A failed workspace execution that is resumed with a rejection runs on where it stopped. */
  lemma RejectionCanRunOn(chosen: History, action: string, cfg: Config) returns (r: History)
    requires State(chosen, cfg).pos == HumanReview && action != APPROVED
    ensures Rejects(r, action, cfg) && Continues(chosen, r)
    ensures State(r, cfg).pos == Workspace && State(r, cfg).running
    ensures State(r, cfg).inner == State(r.earlier, cfg).inner
  {
    var entered := ApprovalLeadsIn(chosen, cfg, "", "n");
    var failed := Then(entered, Crash);
    r := Then(failed, Resume(action, ""));
    assert Continues(entered, failed) && Continues(failed, r);
    ContinuesOn(chosen, entered, failed);
    ContinuesOn(chosen, failed, r);
  }

  /** A review that holds another action than the approval ends the run without workspace. */
  lemma RejectionEnds(h: History, cfg: Config, noteId: string)
    requires State(h, cfg).pos == HumanReview && State(h, cfg).running
    requires State(h, cfg).spare.Decision? && State(h, cfg).spare.action != APPROVED
    ensures State(Then(h, Advance(Reviews(noteId))), cfg).pos == ErrorHandler
  {
    Reachable(h, cfg);
    ReviewRoutes(State(h, cfg).spare.action);
  }

  // ---- Termination of a run -----------------------------------------------------------------------

  /** The supervisor nodes entered since the last invocation. */
  function Visits(h: History, cfg: Config): seq<Node> {
    match h
    case Start => []
    case Then(e, ev) =>
      var n := State(h, cfg).pos;
      if ev.Invoke? then [n]
      else if n != State(e, cfg).pos && Rank(n) <= 3 then Visits(e, cfg) + [n]
      else Visits(e, cfg)
  }

  /** A run visits at most four supervisor nodes, each at most once, in the order of their ranks. */
  lemma {:induction false} AtMostFourNodes(h: History, cfg: Config)
    ensures |Visits(h, cfg)| <= 4
    ensures |Visits(h, cfg)| <= Rank(State(h, cfg).pos) + 1
    ensures forall i :: 0 <= i < |Visits(h, cfg)| ==> Rank(Visits(h, cfg)[i]) <= Rank(State(h, cfg).pos)
    ensures forall i, j :: 0 <= i < j < |Visits(h, cfg)| ==> Rank(Visits(h, cfg)[i]) < Rank(Visits(h, cfg)[j])
  {
    match h
    case Start =>
    case Then(e, ev) =>
      AtMostFourNodes(e, cfg);
      Reachable(e, cfg);
      StepInv(State(e, cfg), ev, cfg);
  }
}
