/**
 One conversation thread as a stepping state machine: the master graph around the
 supervisor graph, with the two evidence loops inside it and the pause / resume protocol
 around it. Model answers, tool outputs, failures and calls are events; every edge is
 decided by the program's own routers.
 */
module AgentGraph {
  import opened Messages
  import opened Routing
  import Memory = MemoryManager
  import Loop = EvidenceLoop

  /** The pending node of the thread; `Idle` when nothing is pending. */
  datatype Node = Delegate | HumanReview | Researcher | Workspace | Chat | MemoryManager | ErrorHandler | Idle

  /**
   The compiled graph. `keepsResume` is the one library behaviour the program does not
   decide: whether a resume value handed to a thread that waits at another node (after a
   failure) is kept for a review reached later in the same call.
   */
  datatype Config = Config(includeWorkspace: bool, looksLikeLocalTime: string -> bool, policy: Memory.Policy,
                           research: Loop.Setup, workspace: Loop.Setup, keepsResume: bool)

  /** The channels master and supervisor share; "" stands for an absent value. */
  datatype Channels = Channels(messages: seq<Message>, error: string, humanFeedback: string, nextAgent: string)

  datatype Decision = NoDecision | Decision(action: string, feedback: string)

  datatype Thread = Thread(master: Channels, sup: Channels, pos: Node, running: bool, inner: Loop.Loop, spare: Decision)

  /** What the pending node gets from the outside: a model answer, tool outputs, a new id. */
  datatype Outcome =
    | Delegates(answer: string)
    | Reviews(noteId: Id)
    | InLoop(input: Loop.Input)
    | Replies(message: Message)
    | Summarises(summaryId: Id, text: string)
    | Handles(noteId: Id)

  /** A call on the thread, a node that completes, or a failure that leaves it pending. */
  datatype Event =
    | Invoke(message: Message)
    | Resume(action: string, feedback: string)
    | Advance(outcome: Outcome)
    | Crash

  const REFUSAL := "That wasn't approved, so we didn't run it."
  const GLITCH := "Something glitched on our side—mind trying once more?"

  const EMPTY := Channels([], "", "", "")

  const NEW_THREAD := Thread(EMPTY, EMPTY, Idle, false, Loop.Enter([], ""), NoDecision)

  /** `snapshot_is_paused`: some node is pending. */
  predicate IsPaused(t: Thread) {
    t.pos != Idle
  }

  /** `_build_initial_state` merged into the thread: approval, error and agent are reset. */
  function Invoked(t: Thread, m: Message): Thread {
    var start := Channels(Merge(t.master.messages, [m]), "", "", "");
    Thread(start, start, Delegate, true, t.inner, NoDecision)
  }

  function Resumed(t: Thread, action: string, feedback: string, cfg: Config): Thread {
    if !IsPaused(t) then t
    else t.(running := true,
            spare := if t.pos == HumanReview || cfg.keepsResume then Decision(action, feedback) else NoDecision)
  }

  /** The supervisor graph has ended: its channels are merged into the master's. */
  function Finish(t: Thread): Thread {
    t.(master := t.sup.(messages := Merge(t.master.messages, t.sup.messages)), pos := ErrorHandler)
  }

  function Goto(t: Thread, target: Target): Thread {
    match target
    case ToReview => t.(pos := HumanReview)
    case ToResearcher => t.(pos := Researcher, inner := Loop.Enter(t.sup.messages, t.sup.error))
    case ToWorkspace => t.(pos := Workspace, inner := Loop.Enter(t.sup.messages, t.sup.error))
    case ToChat => t.(pos := Chat)
    case ToEnd => Finish(t)
  }

  function Follow(t: Thread, edges: map<string, Target>, route: string): Thread {
    if route in edges then Goto(t, edges[route]) else t.(running := false)
  }

  function DelegateNode(t: Thread, answer: string, cfg: Config): Thread {
    var agent := Delegated(answer, cfg.looksLikeLocalTime(LastHumanText(t.sup.messages)), cfg.includeWorkspace);
    Follow(t.(sup := t.sup.(nextAgent := agent)), DELEGATE_EDGES, RouteToHumanReview(t.sup.error, agent))
  }

  function Refusal(id: Id, feedback: string): Message {
    Message(id, Ai, REFUSAL + if feedback != "" then " Note: " + feedback else "", [])
  }

  /** Without a decision the node interrupts the run; with one it applies it. */
  function ReviewNode(t: Thread, noteId: Id): Thread {
    match t.spare
    case NoDecision => t.(running := false)
    case Decision(action, feedback) =>
      var notes := if action != APPROVED then [Refusal(noteId, feedback)] else [];
      var sup := t.sup.(humanFeedback := action, messages := Merge(t.sup.messages, notes));
      Follow(t.(sup := sup, spare := NoDecision), REVIEW_EDGES, RouteAfterHumanReview(action, sup.nextAgent))
  }

  /** `route_post_reply`. */
  function PostReply(t: Thread, cfg: Config): Thread {
    if Memory.ShouldSummarize(|t.sup.messages|, cfg.policy) then t.(pos := MemoryManager) else Finish(t)
  }

  predicate Raises(inner: Loop.Loop, input: Loop.Input) {
    input.Fail? || (inner.node == Loop.Plan && input.PlanSays? && Loop.PlanOutcome(input.first, input.second).Raised?)
  }

  function LoopNode(t: Thread, input: Loop.Input, setup: Loop.Setup, cfg: Config): Thread {
    if Raises(t.inner, input) then t.(running := false)
    else LoopMoves(t, Loop.Step(t.inner, input, setup), cfg)
  }

  /** A loop that has ended hands its messages to the supervisor. */
  function LoopMoves(t: Thread, inner: Loop.Loop, cfg: Config): Thread {
    if inner.node != Loop.Done then t.(inner := inner)
    else PostReply(t.(inner := inner, sup := t.sup.(messages := Merge(t.sup.messages, inner.messages))), cfg)
  }

  function ChatNode(t: Thread, m: Message, cfg: Config): Thread {
    PostReply(t.(sup := t.sup.(messages := Merge(t.sup.messages, [m]))), cfg)
  }

  function MemoryNode(t: Thread, id: Id, text: string, cfg: Config): Thread {
    match Memory.Compact(t.sup.messages, cfg.policy, id, text)
    case Merged(ms) => Finish(t.(sup := t.sup.(messages := ms)))
    case UnknownId(_) => t.(running := false)
  }

  function ErrorNode(t: Thread, noteId: Id): Thread {
    var done := t.(pos := Idle, running := false);
    if t.master.error == "" then done
    else
      var note := Message(noteId, Ai, GLITCH, []);
      done.(master := t.master.(messages := Merge(t.master.messages, [note]), error := ""))
  }

  /** An outcome for another node than the pending one changes nothing. */
  function Advanced(t: Thread, o: Outcome, cfg: Config): Thread {
    match (t.pos, o)
    case (Delegate, Delegates(answer)) => DelegateNode(t, answer, cfg)
    case (HumanReview, Reviews(noteId)) => ReviewNode(t, noteId)
    case (Researcher, InLoop(input)) => LoopNode(t, input, cfg.research, cfg)
    case (Workspace, InLoop(input)) => LoopNode(t, input, cfg.workspace, cfg)
    case (Chat, Replies(m)) => ChatNode(t, m, cfg)
    case (MemoryManager, Summarises(id, text)) => MemoryNode(t, id, text, cfg)
    case (ErrorHandler, Handles(noteId)) => ErrorNode(t, noteId)
    case _ => t
  }

  function Step(t: Thread, e: Event, cfg: Config): Thread {
    match e
    case Invoke(m) => Invoked(t, m)
    case Resume(action, feedback) => Resumed(t, action, feedback, cfg)
    case Advance(o) => if t.running then Advanced(t, o, cfg) else t
    case Crash => t.(running := false)
  }

  /** Everything that happened on a thread, in order. */
  datatype History = Start | Then(earlier: History, event: Event)

  function State(h: History, cfg: Config): Thread {
    match h
    case Start => NEW_THREAD
    case Then(e, ev) => Step(State(e, cfg), ev, cfg)
  }
}
