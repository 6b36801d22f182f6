/**
 The two message channels of a thread over every history: the supervisor's, which the memory
 manager compacts, and the master's, into which the result is merged without removals.
 */
module ThreadMemory {
  import opened Messages
  import opened AgentGraph
  import Memory = MemoryManager
  import Loop = EvidenceLoop

  /** A channel the reducer could have produced. */
  ghost predicate Sound(ms: seq<Message>) {
    Distinct(ms) && "" !in Ids(ms)
  }

  /** New messages carry ids of their own; tool nodes answer every call once. */
  ghost predicate ValidEvent(t: Thread, e: Event) {
    match e
    case Invoke(m) => Loop.New(t.master.messages, m)
    case Resume(_, _) => true
    case Crash => true
    case Advance(o) =>
      match o
      case Delegates(_) => true
      case Reviews(id) => id !in Ids(t.sup.messages) + {""}
      case InLoop(input) => Loop.ValidInput(t.inner, input)
      case Replies(m) => Loop.New(t.sup.messages, m)
      case Summarises(id, _) => id !in Ids(t.sup.messages) + {""}
      case Handles(id) => id !in Ids(t.master.messages) + {""}
  }

  ghost predicate ValidHistory(h: History, cfg: Config) {
    match h
    case Start => true
    case Then(e, ev) => ValidHistory(e, cfg) && ValidEvent(State(e, cfg), ev)
  }

  predicate InSupervisor(n: Node) {
    n != ErrorHandler && n != Idle
  }

  ghost predicate LoopInv(base: seq<Message>, inner: Loop.Loop) {
    exists rounds, tail :: Loop.Inv(base, inner, rounds, tail)
  }

  ghost predicate Inv(t: Thread, cfg: Config) {
    && Sound(t.master.messages) && t.master.error == ""
    && (InSupervisor(t.pos) ==> Sound(t.sup.messages) && t.master.messages <= t.sup.messages)
    && (t.pos in {Researcher, Workspace} ==> LoopInv(t.sup.messages, t.inner))
    && (t.pos == MemoryManager ==>
          Memory.ShouldSummarize(|t.sup.messages|, cfg.policy) && |t.master.messages| < |t.sup.messages|)
    && t.sup.error == ""
  }

  lemma SoundSplit(a: seq<Message>, b: seq<Message>)
    requires Sound(a + b)
    ensures Sound(a) && Fresh(a, b) && Sound(b)
  {
    DistinctPart(a, b);
    IdsConcat(a, b);
    assert forall k :: 0 <= k < |b| ==> (a + b)[|a| + k] == b[k];
  }

  /** Handing back a list that extends the channel makes the channel that list. */
  lemma MergeExtension(base: seq<Message>, ms: seq<Message>)
    requires base <= ms && Sound(ms)
    ensures Merge(base, ms) == ms
  {
    var added := ms[|base|..];
    assert ms == base + added;
    SoundSplit(base, added);
    MergeAppends(base, base, added);
  }

  lemma FinishExtends(t: Thread, cfg: Config)
    requires Inv(t, cfg) && InSupervisor(t.pos)
    ensures Inv(Finish(t), cfg) && Finish(t).master.messages == t.sup.messages
  {
    MergeExtension(t.master.messages, t.sup.messages);
  }

  /**
   Merging a compacted list back removes nothing: the master keeps all it had, followed by
   those new messages the compaction kept and the summary.
   */
  lemma MergeCompacted(master: seq<Message>, added: seq<Message>, cut: nat, note: Message)
    requires Sound(master + added) && cut <= |master + added|
    requires note.id !in Ids(master + added) + {""}
    ensures var kept := (master + added)[cut..] + [note];
            var late := added[if cut <= |master| then 0 else cut - |master|..] + [note];
            && Merge(master, kept) == master + late
            && Sound(master + late)
  {
    var ms := master + added;
    SoundSplit(master, added);
    var from := if cut <= |master| then 0 else cut - |master|;
    var known := if cut <= |master| then master[cut..] else [];
    var rest := added[from..];
    assert added == added[..from] + rest;
    SoundSplit(added[..from], rest);
    assert ms[cut..] + [note] == known + (rest + [note]);
    assert Ids(rest) <= Ids(added);
    IdsConcat(master, added);
    IdsConcat(rest, [note]);
    assert Ids([note]) == {note.id};
    DistinctConcat(rest, [note]);
    MergeAppends(master, known, rest + [note]);
    IdsConcat(master, rest + [note]);
    DistinctConcat(master, rest + [note]);
  }

  lemma AfterReplyInv(t: Thread, cfg: Config)
    requires Inv(t.(pos := Chat), cfg) && |t.master.messages| < |t.sup.messages|
    ensures Inv(PostReply(t, cfg), cfg)
    ensures t.master.messages <= PostReply(t, cfg).master.messages
  {
    FinishExtends(t.(pos := Chat), cfg);
  }

  lemma GotoInv(t: Thread, target: Routing.Target, cfg: Config)
    requires Inv(t, cfg) && t.pos in {Delegate, HumanReview}
    ensures Inv(Goto(t, target), cfg)
    ensures t.master.messages <= Goto(t, target).master.messages
  {
    FinishExtends(t, cfg);
    var inner := Loop.Enter(t.sup.messages, t.sup.error);
    assert t.sup.messages + [] + [] == t.sup.messages;
    assert Loop.Inv(t.sup.messages, inner, [], []);
  }

  lemma ReviewInv(t: Thread, noteId: Id, cfg: Config)
    requires Inv(t, cfg) && t.pos == HumanReview && noteId !in Ids(t.sup.messages) + {""}
    ensures Inv(ReviewNode(t, noteId), cfg)
    ensures t.master.messages <= ReviewNode(t, noteId).master.messages
  {
    if t.spare.Decision? {
      var ms, action := t.sup.messages, t.spare.action;
      var notes := if action != Routing.APPROVED then [Refusal(noteId, t.spare.feedback)] else [];
      if notes == [] {
        MergeAppends(ms, notes, notes);
        assert notes + notes == notes && ms + notes == ms;
      } else {
        Loop.MergeNew(ms, notes[0]);
      }
      var sup := t.sup.(humanFeedback := action, messages := Merge(ms, notes));
      var t' := t.(sup := sup, spare := NoDecision);
      assert Inv(t', cfg);
      var route := Routing.RouteAfterHumanReview(action, sup.nextAgent);
      if route in Routing.REVIEW_EDGES {
        GotoInv(t', Routing.REVIEW_EDGES[route], cfg);
      }
    }
  }

  lemma InvExtends(base: seq<Message>, inner: Loop.Loop, rounds: seq<Loop.Round>, tail: seq<Message>)
    requires Loop.Inv(base, inner, rounds, tail)
    ensures LoopInv(base, inner) && base <= inner.messages && Sound(inner.messages)
    ensures inner.node == Loop.Done ==> |base| < |inner.messages|
    ensures Merge(base, inner.messages) == inner.messages
  {
    var added := Loop.Flatten(rounds) + tail;
    assert inner.messages == base + added;
    assert rounds != [] ==> Loop.Flatten(rounds) != [];
    MergeExtension(base, inner.messages);
  }

  /** A step of the inner graph keeps its messages an extension of what it was entered with. */
  lemma InnerStep(base: seq<Message>, inner: Loop.Loop, input: Loop.Input, setup: Loop.Setup)
    requires LoopInv(base, inner) && Loop.ValidInput(inner, input)
    ensures var next := Loop.Step(inner, input, setup);
            && LoopInv(base, next)
            && base <= next.messages && Sound(next.messages)
            && (next.node == Loop.Done ==> |base| < |next.messages|)
            && Merge(base, next.messages) == next.messages
  {
    var rounds, tail :| Loop.Inv(base, inner, rounds, tail);
    rounds, tail := Loop.LoopStep(base, inner, rounds, tail, input, setup);
    InvExtends(base, Loop.Step(inner, input, setup), rounds, tail);
  }

  lemma LoopMovesInv(t: Thread, inner: Loop.Loop, cfg: Config)
    requires Inv(t, cfg) && t.pos in {Researcher, Workspace} && LoopInv(t.sup.messages, inner)
    requires t.sup.messages <= inner.messages && Sound(inner.messages)
    requires inner.node == Loop.Done ==> |t.sup.messages| < |inner.messages|
    requires Merge(t.sup.messages, inner.messages) == inner.messages
    ensures Inv(LoopMoves(t, inner, cfg), cfg)
    ensures t.master.messages <= LoopMoves(t, inner, cfg).master.messages
  {
    if inner.node == Loop.Done {
      AfterReplyInv(t.(inner := inner, sup := t.sup.(messages := inner.messages)), cfg);
    }
  }

  lemma LoopNodeInv(t: Thread, input: Loop.Input, setup: Loop.Setup, cfg: Config)
    requires Inv(t, cfg) && t.pos in {Researcher, Workspace} && Loop.ValidInput(t.inner, input)
    ensures Inv(LoopNode(t, input, setup, cfg), cfg)
    ensures t.master.messages <= LoopNode(t, input, setup, cfg).master.messages
  {
    if !Raises(t.inner, input) {
      InnerStep(t.sup.messages, t.inner, input, setup);
      LoopMovesInv(t, Loop.Step(t.inner, input, setup), cfg);
    }
  }

  /** What the memory manager leaves in the supervisor's channel. */
  function Compacted(ms: seq<Message>, keep: int, note: Message): seq<Message>
    requires 1 <= keep < |ms|
  {
    ms[|ms| - keep..] + [note]
  }

  lemma MemoryNodeEffect(t: Thread, id: Id, text: string, cfg: Config)
    requires Sound(t.sup.messages) && id !in Ids(t.sup.messages)
    requires 1 <= cfg.policy.keep < |t.sup.messages|
    ensures var ms := Compacted(t.sup.messages, cfg.policy.keep, Memory.Summary(id, text));
            MemoryNode(t, id, text, cfg) == Finish(t.(sup := t.sup.(messages := ms)))
  {
    Memory.CompactionConserves(t.sup.messages, cfg.policy, id, text);
    var ms := Compacted(t.sup.messages, cfg.policy.keep, Memory.Summary(id, text));
    assert Memory.Compact(t.sup.messages, cfg.policy, id, text) == Merged(ms);
  }

  lemma FinishCompacted(t: Thread, note: Message, cfg: Config)
    requires Inv(t, cfg) && t.pos == MemoryManager && note.id !in Ids(t.sup.messages) + {""}
    requires 1 <= cfg.policy.keep < |t.sup.messages|
    ensures var t' := Finish(t.(sup := t.sup.(messages := Compacted(t.sup.messages, cfg.policy.keep, note))));
            Inv(t', cfg) && t.master.messages <= t'.master.messages
  {
    MergedSound(t.master.messages, t.sup.messages, cfg.policy.keep, note);
  }

  lemma MergedSound(master: seq<Message>, ms: seq<Message>, keep: int, note: Message)
    requires master <= ms && Sound(ms) && 1 <= keep < |ms| && note.id !in Ids(ms) + {""}
    ensures var merged := Merge(master, Compacted(ms, keep, note));
            Sound(merged) && master < merged
  {
    var added := ms[|master|..];
    assert ms == master + added;
    MergeCompacted(master, added, |ms| - keep, note);
  }

  lemma MemoryNodeInv(t: Thread, id: Id, text: string, cfg: Config)
    requires Inv(t, cfg) && t.pos == MemoryManager && id !in Ids(t.sup.messages) + {""}
    ensures Inv(MemoryNode(t, id, text, cfg), cfg)
    ensures t.master.messages <= MemoryNode(t, id, text, cfg).master.messages
  {
    MemoryNodeEffect(t, id, text, cfg);
    FinishCompacted(t, Memory.Summary(id, text), cfg);
  }

  lemma InvokeInv(t: Thread, m: Message, cfg: Config)
    requires Inv(t, cfg) && Loop.New(t.master.messages, m)
    ensures Inv(Invoked(t, m), cfg)
    ensures Invoked(t, m).master.messages == t.master.messages + [m]
  {
    Loop.MergeNew(t.master.messages, m);
  }

  lemma StepInv(t: Thread, e: Event, cfg: Config)
    requires Inv(t, cfg) && ValidEvent(t, e)
    ensures Inv(Step(t, e, cfg), cfg)
    ensures t.master.messages <= Step(t, e, cfg).master.messages
  {
    match e
    case Invoke(m) => InvokeInv(t, m, cfg);
    case Resume(_, _) =>
    case Crash =>
    case Advance(o) =>
      if t.running {
        AdvanceInv(t, o, cfg);
      }
  }

  lemma AdvanceInv(t: Thread, o: Outcome, cfg: Config)
    requires Inv(t, cfg) && ValidEvent(t, Advance(o))
    ensures Inv(Advanced(t, o, cfg), cfg)
    ensures t.master.messages <= Advanced(t, o, cfg).master.messages
  {
    match (t.pos, o)
    case (Delegate, Delegates(answer)) =>
      var agent := Routing.Delegated(answer, cfg.looksLikeLocalTime(Routing.LastHumanText(t.sup.messages)),
                                     cfg.includeWorkspace);
      var t' := t.(sup := t.sup.(nextAgent := agent));
      var route := Routing.RouteToHumanReview(t.sup.error, agent);
      if route in Routing.DELEGATE_EDGES {
        GotoInv(t', Routing.DELEGATE_EDGES[route], cfg);
      }
    case (HumanReview, Reviews(noteId)) => ReviewInv(t, noteId, cfg);
    case (Researcher, InLoop(input)) => LoopNodeInv(t, input, cfg.research, cfg);
    case (Workspace, InLoop(input)) => LoopNodeInv(t, input, cfg.workspace, cfg);
    case (Chat, Replies(m)) =>
      Loop.MergeNew(t.sup.messages, m);
      AfterReplyInv(t.(sup := t.sup.(messages := Merge(t.sup.messages, [m]))), cfg);
    case (MemoryManager, Summarises(id, text)) => MemoryNodeInv(t, id, text, cfg);
    case (ErrorHandler, Handles(noteId)) =>
    case _ =>
  }

  lemma {:induction false} Reachable(h: History, cfg: Config)
    requires ValidHistory(h, cfg)
    ensures Inv(State(h, cfg), cfg)
  {
    match h
    case Start =>
      assert NEW_THREAD.master.messages == [];
      assert Sound([]);
    case Then(e, ev) =>
      Reachable(e, cfg);
      StepInv(State(e, cfg), ev, cfg);
  }

  /** The master channel only ever grows, so compaction never shortens a stored thread. */
  lemma MasterOnlyGrows(h: History, cfg: Config)
    requires ValidHistory(h, cfg) && h.Then?
    ensures State(h.earlier, cfg).master.messages <= State(h, cfg).master.messages
    ensures Sound(State(h, cfg).master.messages)
  {
    Reachable(h.earlier, cfg);
    StepInv(State(h.earlier, cfg), h.event, cfg);
  }

  /** A run that ends through a reply node leaves the supervisor's own channel bounded. */
  lemma SupervisorIsBounded(h: History, cfg: Config)
    requires ValidHistory(h, cfg) && h.Then? && cfg.policy.trigger > 0 && cfg.policy.keep >= 1
    requires State(h.earlier, cfg).pos in {Researcher, Workspace, Chat, MemoryManager}
    requires State(h, cfg).pos == ErrorHandler
    ensures |State(h, cfg).sup.messages| <= Memory.Max(cfg.policy.trigger, cfg.policy.keep + 1)
  {
    var t := State(h.earlier, cfg);
    Reachable(h.earlier, cfg);
    if t.pos == MemoryManager {
      MemoryNodeEffect(t, h.event.outcome.summaryId, h.event.outcome.text, cfg);
    }
  }

  /** Once the stored thread is over the bound, every later reply leads to the memory manager. */
  lemma LongThreadsAlwaysSummarise(h: History, cfg: Config)
    requires ValidHistory(h, cfg) && h.Then? && !h.event.Invoke?
    requires State(h.earlier, cfg).pos in {Researcher, Workspace, Chat}
    requires State(h, cfg).pos != State(h.earlier, cfg).pos
    requires Memory.ShouldSummarize(|State(h.earlier, cfg).master.messages|, cfg.policy)
    ensures State(h, cfg).pos == MemoryManager
  {
    var t := State(h.earlier, cfg);
    Reachable(h.earlier, cfg);
    StepInv(t, h.event, cfg);
    if t.pos == Chat {
      Loop.MergeNew(t.sup.messages, h.event.outcome.message);
    } else {
      var setup := if t.pos == Researcher then cfg.research else cfg.workspace;
      InnerStep(t.sup.messages, t.inner, h.event.outcome.input, setup);
    }
  }

  /**
   The reply just given is what the stored thread shows after the memory manager ran: `t` and
   `t'` are the thread before and after that step.
   */
  lemma StoredReplySurvives(h: History, id: Id, text: string, cfg: Config, t: Thread, t': Thread, reply: Message)
    requires ValidHistory(h, cfg) && t == State(h, cfg) && t.pos == MemoryManager && t.running
    requires t' == State(Then(h, Advance(Summarises(id, text))), cfg)
    requires id !in Ids(t.sup.messages) + {""}
    requires t.sup.messages != [] && t.sup.messages[|t.sup.messages| - 1] == reply && Memory.Visible(reply)
    ensures Memory.LastAiReply(t'.master.messages) == reply.content
  {
    ManagerIsReady(h, t, cfg);
    assert t' == MemoryNode(t, id, text, cfg) by {
      MemoryStep(h, t, id, text, cfg);
    }
    ThreadShowsReply(t, id, text, cfg, reply);
  }

  lemma ThreadShowsReply(t: Thread, id: Id, text: string, cfg: Config, reply: Message)
    requires Sound(t.sup.messages) && t.master.messages < t.sup.messages
    requires id !in Ids(t.sup.messages) + {""} && 1 <= cfg.policy.keep < |t.sup.messages|
    requires t.sup.messages[|t.sup.messages| - 1] == reply && Memory.Visible(reply)
    ensures Memory.LastAiReply(MemoryNode(t, id, text, cfg).master.messages) == reply.content
  {
    var added := t.sup.messages[|t.master.messages|..];
    assert t.sup.messages == t.master.messages + added;
    assert added[|added| - 1] == reply;
    NodeShowsReply(t, added, id, text, cfg);
  }

  /** Where the last match of a list stands once a part in the middle is gone and a non-match follows. */
  lemma LastIndexWithGap(front: seq<Message>, gone: seq<Message>, rest: seq<Message>, note: Message, p: Message -> bool)
    requires !p(note)
    ensures var v := Memory.LastIndex(front + (gone + rest), p);
            Memory.LastIndex(front + (rest + [note]), p)
            == if v >= |front| + |gone| then v - |gone|
               else if v >= |front| then Memory.LastIndex(front, p)
               else v
  {
    Memory.LastIndexConcat(front, gone + rest, p);
    Memory.LastIndexConcat(gone, rest, p);
    Memory.LastIndexConcat(front, rest + [note], p);
    assert (rest + [note])[..|rest|] == rest;
  }

  lemma ContentMoved(front: seq<Message>, gone: seq<Message>, rest: seq<Message>, note: Message, v: int, w: int, u: int)
    requires -1 <= v < |front + (gone + rest)| && -1 <= w < |front|
    requires u == if v >= |front| + |gone| then v - |gone| else if v >= |front| then w else v
    ensures -1 <= u < |front + (rest + [note])|
    ensures Memory.ContentAt(front + (rest + [note]), u)
            == if v < 0 then note.content
               else if |front| <= v < |front| + |gone| then (if w >= 0 then front[w].content else note.content)
               else (front + (gone + rest))[v].content
  {
    var after := front + (rest + [note]);
    assert after[|after| - 1] == note;
    if v >= |front| + |gone| {
      assert after[v - |gone|] == (front + (gone + rest))[v];
    }
  }

  lemma ContentWithGap(front: seq<Message>, gone: seq<Message>, rest: seq<Message>, note: Message,
                       p: Message -> bool, v: int)
    requires !p(note) && v == Memory.LastIndex(front + (gone + rest), p)
    ensures var after, w := front + (rest + [note]), Memory.LastIndex(front, p);
            Memory.ContentAt(after, Memory.LastIndex(after, p))
            == if v < 0 then note.content
               else if |front| <= v < |front| + |gone| then (if w >= 0 then front[w].content else note.content)
               else (front + (gone + rest))[v].content
  {
    var w, u := Memory.LastIndex(front, p), Memory.LastIndex(front + (rest + [note]), p);
    assert u == if v >= |front| + |gone| then v - |gone| else if v >= |front| then w else v by {
      LastIndexWithGap(front, gone, rest, note, p);
    }
    ContentMoved(front, gone, rest, note, v, w, u);
  }

  /** The supervisor's list, split at the stored thread and at the messages the compaction keeps. */
  ghost predicate Splits(t: Thread, gone: seq<Message>, rest: seq<Message>, keep: int) {
    && t.sup.messages == t.master.messages + (gone + rest)
    && |gone| == Dropped(gone + rest, keep)
  }

  /** The visible reply of the supervisor's list is lost with the messages the stored thread loses. */
  ghost predicate ReplyIsLost(t: Thread, gone: seq<Message>) {
    |t.master.messages| <= Memory.LastVisible(t.sup.messages) < |t.master.messages| + |gone|
  }

  /**
   What the user reads in the stored thread after the memory manager ran: the reply that was
   visible, unless it was lost; then the last visible one from before the run; and the summary
   where there is none.
   */
  lemma StoredReply(h: History, id: Id, text: string, cfg: Config, t: Thread, t': Thread)
    returns (gone: seq<Message>, rest: seq<Message>)
    requires ValidHistory(h, cfg) && t == State(h, cfg) && t.pos == MemoryManager && t.running
    requires t' == State(Then(h, Advance(Summarises(id, text))), cfg)
    requires id !in Ids(t.sup.messages) + {""}
    ensures Splits(t, gone, rest, cfg.policy.keep)
    ensures Memory.LastAiReply(t'.master.messages)
            == if Memory.LastVisible(t.sup.messages) < 0 then Memory.Summary(id, text).content
               else if !ReplyIsLost(t, gone) then Memory.LastAiReply(t.sup.messages)
               else if Memory.LastVisible(t.master.messages) >= 0 then Memory.LastAiReply(t.master.messages)
               else Memory.Summary(id, text).content
  {
    var added := EachCompactionAddsOneSummary(h, id, text, cfg);
    var d := Dropped(added, cfg.policy.keep);
    gone, rest := added[..d], added[d..];
    assert added == gone + rest;
    var note := Memory.Summary(id, text);
    assert t'.master.messages == t.master.messages + (rest + [note]);
    Memory.SummaryIsInternal(id, text);
    ContentWithGap(t.master.messages, gone, rest, note, Memory.Visible, Memory.LastVisible(t.sup.messages));
  }

  /** The visible reply survives exactly if it was not lost, or the one read instead says the same. */
  lemma StoredReplySurvivesIff(h: History, id: Id, text: string, cfg: Config, t: Thread, t': Thread)
    returns (gone: seq<Message>, rest: seq<Message>)
    requires ValidHistory(h, cfg) && t == State(h, cfg) && t.pos == MemoryManager && t.running
    requires t' == State(Then(h, Advance(Summarises(id, text))), cfg)
    requires id !in Ids(t.sup.messages) + {""} && Memory.LastVisible(t.sup.messages) >= 0
    ensures Splits(t, gone, rest, cfg.policy.keep)
    ensures Memory.LastAiReply(t'.master.messages) == Memory.LastAiReply(t.sup.messages)
            <==> (ReplyIsLost(t, gone) ==>
                    && Memory.LastVisible(t.master.messages) >= 0
                    && Memory.LastAiReply(t.master.messages) == Memory.LastAiReply(t.sup.messages))
  {
    gone, rest := StoredReply(h, id, text, cfg, t, t');
    var note := Memory.Summary(id, text);
    Memory.SummaryIsInternal(id, text);
    Memory.VisibleReadsOtherwise(t.sup.messages[Memory.LastVisible(t.sup.messages)], note);
  }

  /** At the memory manager there is something to compact, and the run has added to the thread. */
  lemma ManagerIsReady(h: History, t: Thread, cfg: Config)
    requires ValidHistory(h, cfg) && t == State(h, cfg) && t.pos == MemoryManager
    ensures Sound(t.sup.messages) && t.master.messages < t.sup.messages
    ensures 1 <= cfg.policy.keep < |t.sup.messages|
  {
    Reachable(h, cfg);
  }

  lemma MemoryStep(h: History, t: Thread, id: Id, text: string, cfg: Config)
    requires t == State(h, cfg) && t.pos == MemoryManager && t.running
    ensures State(Then(h, Advance(Summarises(id, text))), cfg) == MemoryNode(t, id, text, cfg)
  {
  }

  /** How many messages of a run the compaction does not keep. */
  function Dropped(added: seq<Message>, keep: int): nat {
    if keep < 0 then |added| else if keep <= |added| then |added| - keep else 0
  }

  lemma CompactedMerge(master: seq<Message>, added: seq<Message>, keep: int, note: Message)
    requires Sound(master + added) && 1 <= keep < |master + added| && note.id !in Ids(master + added) + {""}
    ensures Merge(master, Compacted(master + added, keep, note)) == master + (added[Dropped(added, keep)..] + [note])
  {
    MergeCompacted(master, added, |master + added| - keep, note);
  }

  lemma MemoryNodeMaster(t: Thread, added: seq<Message>, id: Id, text: string, cfg: Config)
    requires Sound(t.sup.messages) && t.sup.messages == t.master.messages + added
    requires id !in Ids(t.sup.messages) + {""} && 1 <= cfg.policy.keep < |t.sup.messages|
    ensures var t' := MemoryNode(t, id, text, cfg);
            && t'.master.messages
               == t.master.messages + (added[Dropped(added, cfg.policy.keep)..] + [Memory.Summary(id, text)])
            && t'.sup.messages == Compacted(t.sup.messages, cfg.policy.keep, Memory.Summary(id, text))
            && t'.pos == ErrorHandler
  {
    MemoryNodeEffect(t, id, text, cfg);
    CompactedMerge(t.master.messages, added, cfg.policy.keep, Memory.Summary(id, text));
  }

  /**
   What every completed memory-manager step does to the stored thread: it keeps all it had, one
   summary is added, and of the run's own messages the oldest are lost, those before the last `keep`.
   */
  lemma EachCompactionAddsOneSummary(h: History, id: Id, text: string, cfg: Config) returns (added: seq<Message>)
    requires ValidHistory(h, cfg) && State(h, cfg).pos == MemoryManager && State(h, cfg).running
    requires id !in Ids(State(h, cfg).sup.messages) + {""}
    ensures State(h, cfg).sup.messages == State(h, cfg).master.messages + added && added != []
    ensures State(Then(h, Advance(Summarises(id, text))), cfg).master.messages
            == State(h, cfg).master.messages
               + (added[Dropped(added, cfg.policy.keep)..] + [Memory.Summary(id, text)])
  {
    var t := State(h, cfg);
    ManagerIsReady(h, t, cfg);
    added := t.sup.messages[|t.master.messages|..];
    assert t.sup.messages == t.master.messages + added;
    MemoryStep(h, t, id, text, cfg);
    MemoryNodeMaster(t, added, id, text, cfg);
  }

  lemma NodeShowsReply(t: Thread, added: seq<Message>, id: Id, text: string, cfg: Config)
    requires Sound(t.sup.messages) && t.sup.messages == t.master.messages + added
    requires id !in Ids(t.sup.messages) + {""} && 1 <= cfg.policy.keep < |t.sup.messages|
    requires added != [] && Memory.Visible(added[|added| - 1])
    ensures Memory.LastAiReply(MemoryNode(t, id, text, cfg).master.messages) == added[|added| - 1].content
  {
    var kept := Compacted(t.sup.messages, cfg.policy.keep, Memory.Summary(id, text));
    ShownAfterMerge(t.master.messages, added, cfg.policy.keep, id, text);
    assert MemoryNode(t, id, text, cfg).master.messages == Merge(t.master.messages, kept) by {
      MemoryNodeEffect(t, id, text, cfg);
    }
  }

  lemma ShownAfterMerge(master: seq<Message>, added: seq<Message>, keep: int, id: Id, text: string)
    requires Sound(master + added) && id !in Ids(master + added) + {""}
    requires 1 <= keep < |master + added| && added != [] && Memory.Visible(added[|added| - 1])
    ensures Memory.LastAiReply(Merge(master, Compacted(master + added, keep, Memory.Summary(id, text))))
            == added[|added| - 1].content
  {
    var cut := |master + added| - keep;
    MergeCompacted(master, added, cut, Memory.Summary(id, text));
    ShownBehind(master, added, cut, id, text);
  }

  lemma ShownBehind(master: seq<Message>, added: seq<Message>, cut: nat, id: Id, text: string)
    requires added != [] && cut < |master + added| && Memory.Visible(added[|added| - 1])
    ensures var late := added[if cut <= |master| then 0 else cut - |master|..] + [Memory.Summary(id, text)];
            Memory.LastAiReply(master + late) == added[|added| - 1].content
  {
    var rest := added[if cut <= |master| then 0 else cut - |master|..];
    var shown := master + rest;
    assert shown[|shown| - 1] == added[|added| - 1];
    Memory.SummaryIsSkipped(shown, id, text);
    assert master + (rest + [Memory.Summary(id, text)]) == shown + [Memory.Summary(id, text)];
  }
}
