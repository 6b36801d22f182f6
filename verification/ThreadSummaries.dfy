/**
 How many of the manager's summaries the supervisor's channel holds after a compaction, over
 every history of a thread. Each run starts on the stored thread, which ends in the summary of
 an earlier run, so the kept messages can hold older summaries beside the new one.
 */
module ThreadSummaries {
  import opened Messages
  import opened AgentGraph
  import Loop = EvidenceLoop
  import Memory = MemoryManager
  import Routing
  import Text
  import Chain = CompactionChain
  import T = ThreadMemory

  /** The memory manager completes: the pending node and a new id for its summary. */
  predicate ManagerMoves(t: Thread, e: Event) {
    t.running && t.pos == MemoryManager && e.Advance? && e.outcome.Summarises?
  }

  /** Ids of the summaries the memory manager wrote so far. */
  function Written(h: History, cfg: Config): set<Id> {
    match h
    case Start => {}
    case Then(e, ev) =>
      Written(e, cfg) + if ManagerMoves(State(e, cfg), ev) then {ev.outcome.summaryId} else {}
  }

  ghost predicate ManagerRuns(h: History, id: Id, cfg: Config) {
    && T.ValidHistory(h, cfg) && State(h, cfg).pos == MemoryManager && State(h, cfg).running
    && id !in Ids(State(h, cfg).sup.messages) + {""}
  }

  function Compacting(h: History, id: Id, text: string): History {
    Then(h, Advance(Summarises(id, text)))
  }

  ghost predicate HoldsOne(ms: seq<Message>, ids: set<Id>) {
    exists i :: 0 <= i < |ms| && ms[i].id in ids && forall j :: 0 <= j < |ms| && ms[j].id in ids ==> j == i
  }

  /** After this compaction the supervisor's channel holds one summary of the manager's. */
  ghost predicate LeavesOne(h: History, id: Id, text: string, cfg: Config) {
    HoldsOne(State(Compacting(h, id, text), cfg).sup.messages, Written(Compacting(h, id, text), cfg))
  }

  lemma SupervisorAfter(h: History, t: Thread, t': Thread, id: Id, text: string, cfg: Config)
    requires ManagerRuns(h, id, cfg) && t == State(h, cfg) && t' == State(Compacting(h, id, text), cfg)
    ensures 1 <= cfg.policy.keep < |t.sup.messages|
    ensures t'.sup.messages == T.Compacted(t.sup.messages, cfg.policy.keep, Memory.Summary(id, text))
    ensures Written(Compacting(h, id, text), cfg) == Written(h, cfg) + {id}
  {
    T.ManagerIsReady(h, t, cfg);
    assert t' == MemoryNode(t, id, text, cfg) by {
      T.MemoryStep(h, t, id, text, cfg);
    }
    T.MemoryNodeEffect(t, id, text, cfg);
  }

  lemma OneIff(kept: seq<Message>, note: Message, old_: set<Id>)
    requires note.id !in Ids(kept)
    ensures HoldsOne(kept + [note], old_ + {note.id}) <==> forall m :: m in kept ==> m.id !in old_
  {
    var all, ids := kept + [note], old_ + {note.id};
    assert all[|kept|] == note;
    assert forall k :: 0 <= k < |kept| ==> all[k] == kept[k] && all[k] in kept && all[k].id in Ids(kept);
    if forall m :: m in kept ==> m.id !in old_ {
      assert forall j :: 0 <= j < |all| && all[j].id in ids ==> j == |kept|;
    } else {
      var m :| m in kept && m.id in old_;
      var k :| 0 <= k < |kept| && kept[k] == m;
      assert all[k].id in ids && all[|kept|].id in ids;
    }
  }

  /** One summary is left exactly if none of the kept messages is an older one. */
  lemma LeavesOneIff(h: History, id: Id, text: string, cfg: Config, ms: seq<Message>)
    requires ManagerRuns(h, id, cfg) && ms == State(h, cfg).sup.messages
    ensures 1 <= cfg.policy.keep < |ms|
    ensures LeavesOne(h, id, text, cfg)
            <==> forall m :: m in ms[|ms| - cfg.policy.keep..] ==> m.id !in Written(h, cfg)
  {
    var t' := State(Compacting(h, id, text), cfg);
    SupervisorAfter(h, State(h, cfg), t', id, text, cfg);
    KeptIff(ms, t'.sup.messages, cfg.policy.keep, Memory.Summary(id, text), Written(h, cfg));
  }

  lemma KeptIff(ms: seq<Message>, after: seq<Message>, keep: int, note: Message, old_: set<Id>)
    requires 1 <= keep < |ms| && note.id !in Ids(ms) && after == T.Compacted(ms, keep, note)
    ensures HoldsOne(after, old_ + {note.id}) <==> forall m :: m in ms[|ms| - keep..] ==> m.id !in old_
  {
    var kept := ms[|ms| - keep..];
    assert Ids(kept) <= Ids(ms);
    OneIff(kept, note, old_);
  }

  // ---- Up to two kept messages: never an older summary ------------------------------------------

  lemma {:induction false} WrittenIsStored(h: History, cfg: Config)
    requires T.ValidHistory(h, cfg)
    ensures Written(h, cfg) <= Ids(State(h, cfg).master.messages)
  {
    match h
    case Start =>
    case Then(e, ev) =>
      WrittenIsStored(e, cfg);
      T.MasterOnlyGrows(h, cfg);
      assert Ids(State(e, cfg).master.messages) <= Ids(State(h, cfg).master.messages);
      if ManagerMoves(State(e, cfg), ev) {
        SummaryIsStored(e, ev.outcome.summaryId, ev.outcome.text, cfg);
      }
  }

  lemma SummaryIsStored(h: History, id: Id, text: string, cfg: Config)
    requires ManagerRuns(h, id, cfg)
    ensures State(Compacting(h, id, text), cfg).master.messages != []
    ensures var ms := State(Compacting(h, id, text), cfg).master.messages;
            ms[|ms| - 1].id == id && id in Ids(ms)
  {
    var added := T.EachCompactionAddsOneSummary(h, id, text, cfg);
    var ms := State(Compacting(h, id, text), cfg).master.messages;
    assert ms[|ms| - 1] == Memory.Summary(id, text);
    assert ms[|ms| - 1] in ms;
  }

  /** A run in progress works on a thread that ends in the human turn. */
  ghost predicate OpenTurn(t: Thread, written: set<Id>) {
    T.InSupervisor(t.pos) ==>
      t.master.messages != [] && t.master.messages[|t.master.messages| - 1].id !in written
  }

  lemma StaysInside(t: Thread, e: Event, cfg: Config)
    requires !e.Invoke? && T.InSupervisor(Step(t, e, cfg).pos)
    requires t.pos == MemoryManager ==> |t.sup.messages| > cfg.policy.keep >= 1
    requires ManagerMoves(t, e) ==> T.Sound(t.sup.messages) && e.outcome.summaryId !in Ids(t.sup.messages)
    ensures T.InSupervisor(t.pos) && Step(t, e, cfg).master == t.master && !ManagerMoves(t, e)
  {
    if ManagerMoves(t, e) {
      T.MemoryNodeEffect(t, e.outcome.summaryId, e.outcome.text, cfg);
    }
  }

  lemma {:induction false} RunsHaveAnOpenTurn(h: History, cfg: Config)
    requires T.ValidHistory(h, cfg)
    ensures OpenTurn(State(h, cfg), Written(h, cfg))
  {
    match h
    case Start =>
    case Then(e, ev) =>
      var t := State(e, cfg);
      RunsHaveAnOpenTurn(e, cfg);
      WrittenIsStored(e, cfg);
      T.Reachable(e, cfg);
      if ev.Invoke? {
        T.InvokeInv(t, ev.message, cfg);
      } else if T.InSupervisor(State(h, cfg).pos) {
        StaysInside(t, ev, cfg);
      }
  }

  lemma FewKeptAreNew(h: History, id: Id, cfg: Config, ms: seq<Message>)
    requires ManagerRuns(h, id, cfg) && ms == State(h, cfg).sup.messages && 1 <= cfg.policy.keep <= 2
    ensures |ms| > cfg.policy.keep
    ensures forall m :: m in ms[|ms| - cfg.policy.keep..] ==> m.id !in Written(h, cfg)
  {
    var t := State(h, cfg);
    T.ManagerIsReady(h, t, cfg);
    RunsHaveAnOpenTurn(h, cfg);
    WrittenIsStored(h, cfg);
    LastTwoAreNew(t.master.messages, ms, Written(h, cfg));
    assert |ms| >= 2 ==> ms[|ms| - cfg.policy.keep..] == ms[|ms| - 2..][2 - cfg.policy.keep..];
  }

  lemma LastTwoAreNew(master: seq<Message>, ms: seq<Message>, written: set<Id>)
    requires T.Sound(ms) && master < ms && master != [] && written <= Ids(master)
    requires master[|master| - 1].id !in written
    ensures forall m :: m in ms[|ms| - 2..] ==> m.id !in written
  {
    var added := ms[|master|..];
    assert ms == master + added;
    T.SoundSplit(master, added);
    forall m | m in ms[|ms| - 2..]
      ensures m.id !in written
    {
      var k :| |ms| - 2 <= k < |ms| && ms[k] == m;
      if k >= |master| {
        assert added[k - |master|] == m && m in added && m.id in Ids(added);
      } else {
        assert k == |master| - 1;
      }
    }
  }

  // ---- Three and more: the defaults among them -----------------------------------------------------

  /** A channel that ends in an earlier summary, a human turn and a reply is left with two. */
  lemma SummaryBehindTurn(h: History, id: Id, text: string, cfg: Config, ms: seq<Message>)
    requires ManagerRuns(h, id, cfg) && ms == State(h, cfg).sup.messages && cfg.policy.keep >= 3
    requires |ms| >= 3 && ms[|ms| - 3].id in Written(h, cfg)
    ensures !LeavesOne(h, id, text, cfg)
  {
    LeavesOneIff(h, id, text, cfg, ms);
    var kept := ms[|ms| - cfg.policy.keep..];
    assert kept[cfg.policy.keep - 3] == ms[|ms| - 3];
  }

  /** All ids have between one and `n` characters, so that longer names are new. */
  ghost predicate Numbered(ms: seq<Message>, n: nat) {
    T.Sound(ms) && forall i :: 0 <= i < |ms| ==> |ms[i].id| <= n
  }

  lemma LongerIsNew(ms: seq<Message>, id: Id, n: nat)
    requires Numbered(ms, n) && |id| > n
    ensures id !in Ids(ms) + {""}
  {
  }

  lemma ChatIsChosen(includeWorkspace: bool)
    ensures Routing.Delegated("chat", false, includeWorkspace) == "chat"
  {
    var c := "chat";
    assert c[0] == 'c' && c[|c| - 1] == 't';
    Text.StripByBare(c, Text.IsSpace);
    assert Text.Strip(c) == c;
    assert Routing.Canonical(c) == c;
    Routing.DelegationTable(c, false, includeWorkspace);
  }

  function Human(n: nat, question: string): Message {
    Message(Chain.Name(n), Kind.Human, question, [])
  }

  function Reply(n: nat): Message {
    Message(Chain.Name(n + 1), Ai, "", [])
  }

  lemma AppendNew(ms: seq<Message>, m: Message, n: nat)
    requires Numbered(ms, n) && |m.id| == n + 1
    ensures Loop.New(ms, m) && Merge(ms, [m]) == ms + [m] && Numbered(ms + [m], n + 1)
  {
    LongerIsNew(ms, m.id, n);
    Loop.MergeNew(ms, m);
  }

  /** The thread works on these messages, with nothing else set. */
  ghost predicate At(t: Thread, pos: Node, ms: seq<Message>) {
    && t.pos == pos && t.running && t.sup.messages == ms && t.master.messages == ms
    && t.sup.error == "" && t.master.error == ""
  }

  lemma InvokeStep(h: History, t: Thread, n: nat, question: string, cfg: Config) returns (h': History, t': Thread)
    requires T.ValidHistory(h, cfg) && t == State(h, cfg) && Numbered(t.master.messages, n)
    ensures T.ValidHistory(h', cfg) && t' == State(h', cfg) && Written(h', cfg) == Written(h, cfg)
    ensures At(t', Delegate, t.master.messages + [Human(n, question)])
    ensures Numbered(t'.sup.messages, n + 1)
  {
    AppendNew(t.master.messages, Human(n, question), n);
    h', t' := Then(h, Invoke(Human(n, question))), Invoked(t, Human(n, question));
  }

  /** One completed node, as a step of the history. */
  lemma Completes(h: History, t: Thread, o: Outcome, t': Thread, cfg: Config) returns (h': History)
    requires T.ValidHistory(h, cfg) && t == State(h, cfg) && t.running
    requires T.ValidEvent(t, Advance(o)) && t' == Advanced(t, o, cfg)
    ensures T.ValidHistory(h', cfg) && t' == State(h', cfg)
    ensures Written(h', cfg) == if ManagerMoves(t, Advance(o)) then Written(h, cfg) + {o.summaryId} else Written(h, cfg)
  {
    h' := Then(h, Advance(o));
  }

  lemma DelegateStep(h: History, t: Thread, n: nat, question: string, cfg: Config) returns (h': History, t': Thread)
    requires T.ValidHistory(h, cfg) && t == State(h, cfg) && !cfg.looksLikeLocalTime(question)
    requires t.sup.messages != [] && t.sup.messages[|t.sup.messages| - 1] == Human(n, question)
    requires At(t, Delegate, t.sup.messages)
    ensures T.ValidHistory(h', cfg) && t' == State(h', cfg) && Written(h', cfg) == Written(h, cfg)
    ensures At(t', Node.Chat, t.sup.messages)
  {
    t' := DelegateNode(t, "chat", cfg);
    DelegatesToChat(t, question, cfg);
    h' := Completes(h, t, Delegates("chat"), t', cfg);
  }

  lemma ReplyStep(h: History, t: Thread, n: nat, cfg: Config) returns (h': History, t': Thread)
    requires T.ValidHistory(h, cfg) && t == State(h, cfg) && At(t, Node.Chat, t.sup.messages)
    requires Numbered(t.sup.messages, n + 1)
    ensures T.ValidHistory(h', cfg) && t' == State(h', cfg) && Written(h', cfg) == Written(h, cfg)
    ensures t'.sup.messages == t.sup.messages + [Reply(n)] && Replied(t', cfg)
    ensures t'.pos == MemoryManager ==> t'.master.messages == t.sup.messages
    ensures Numbered(t'.sup.messages, n + 2)
  {
    AppendNew(t.sup.messages, Reply(n), n + 1);
    t' := ChatNode(t, Reply(n), cfg);
    ChatNodeEffect(t, Reply(n), cfg);
    h' := Completes(h, t, Replies(Reply(n)), t', cfg);
  }

  /** After a reply: the memory manager is next, or the supervisor graph has ended. */
  ghost predicate Replied(t: Thread, cfg: Config) {
    && t.running && t.master.error == ""
    && if Memory.ShouldSummarize(|t.sup.messages|, cfg.policy) then t.pos == MemoryManager
       else t.pos == ErrorHandler && t.master.messages == t.sup.messages
  }

  /** A human turn that is answered by a chat reply. */
  lemma Chats(h: History, t: Thread, n: nat, question: string, cfg: Config) returns (h': History, t': Thread)
    requires T.ValidHistory(h, cfg) && t == State(h, cfg) && Numbered(t.master.messages, n)
    requires !cfg.looksLikeLocalTime(question)
    ensures T.ValidHistory(h', cfg) && t' == State(h', cfg) && Written(h', cfg) == Written(h, cfg)
    ensures t'.sup.messages == t.master.messages + [Human(n, question)] + [Reply(n)] && Replied(t', cfg)
    ensures t'.pos == MemoryManager ==> t'.master.messages == t.master.messages + [Human(n, question)]
    ensures Numbered(t'.sup.messages, n + 2)
  {
    h', t' := InvokeStep(h, t, n, question, cfg);
    h', t' := DelegateStep(h', t', n, question, cfg);
    h', t' := ReplyStep(h', t', n, cfg);
  }

  lemma DelegatesToChat(t: Thread, question: string, cfg: Config)
    requires t.sup.error == "" && t.sup.messages != [] && !cfg.looksLikeLocalTime(question)
    requires var last := t.sup.messages[|t.sup.messages| - 1]; last.kind == Kind.Human && last.content == question
    ensures DelegateNode(t, "chat", cfg) == t.(sup := t.sup.(nextAgent := "chat"), pos := Node.Chat)
  {
    assert Routing.LastHumanText(t.sup.messages) == question;
    ChatIsChosen(cfg.includeWorkspace);
    Routing.DelegationRoutes("chat", false, cfg.includeWorkspace, "");
  }

  lemma ChatNodeEffect(t: Thread, r: Message, cfg: Config)
    requires T.Sound(t.sup.messages + [r]) && Merge(t.sup.messages, [r]) == t.sup.messages + [r]
    requires t.master.messages <= t.sup.messages && t.sup.error == "" && t.master.error == ""
    ensures var t' := ChatNode(t, r, cfg);
            && t'.sup.messages == t.sup.messages + [r] && t'.running == t.running && t'.master.error == ""
            && if Memory.ShouldSummarize(|t.sup.messages| + 1, cfg.policy)
               then t'.pos == MemoryManager && t'.master == t.master
               else t'.pos == ErrorHandler && t'.master.messages == t.sup.messages + [r]
  {
    T.MergeExtension(t.master.messages, t.sup.messages + [r]);
  }

  /** The run goes on through the memory manager, which leaves its summary at the end. */
  lemma CompactStep(h: History, t: Thread, n: nat, cfg: Config) returns (h': History, t': Thread)
    requires T.ValidHistory(h, cfg) && t == State(h, cfg) && t.pos == MemoryManager && t.running
    requires Numbered(t.sup.messages, n + 2) && t.master.error == "" && t.sup.error == ""
    ensures T.ValidHistory(h', cfg) && t' == State(h', cfg)
    ensures t'.pos == ErrorHandler && t'.running && t'.master.error == ""
    ensures |t.master.messages| < |t'.master.messages| && Numbered(t'.master.messages, n + 3)
    ensures t'.master.messages[|t'.master.messages| - 1].id in Written(h', cfg)
  {
    var id := Chain.Name(n + 2);
    T.ManagerIsReady(h, t, cfg);
    t' := CompactEffect(t, n, cfg);
    assert T.ValidEvent(t, Advance(Summarises(id, ""))) by {
      LongerIsNew(t.sup.messages, id, n + 2);
    }
    h' := Completes(h, t, Summarises(id, ""), t', cfg);
  }

  lemma CompactEffect(t: Thread, n: nat, cfg: Config) returns (t': Thread)
    requires t.pos == MemoryManager
    requires T.Sound(t.sup.messages) && t.master.messages < t.sup.messages && 1 <= cfg.policy.keep < |t.sup.messages|
    requires Numbered(t.sup.messages, n + 2) && t.sup.error == ""
    ensures t' == Advanced(t, Summarises(Chain.Name(n + 2), ""), cfg)
    ensures t'.pos == ErrorHandler && t'.running == t.running && t'.master.error == ""
    ensures |t.master.messages| < |t'.master.messages| && Numbered(t'.master.messages, n + 3)
    ensures t'.master.messages[|t'.master.messages| - 1].id == Chain.Name(n + 2)
  {
    var id := Chain.Name(n + 2);
    var added := t.sup.messages[|t.master.messages|..];
    assert t.sup.messages == t.master.messages + added;
    t' := MemoryNode(t, id, "", cfg);
    LongerIsNew(t.sup.messages, id, n + 2);
    T.MemoryNodeEffect(t, id, "", cfg);
    T.MemoryNodeMaster(t, added, id, "", cfg);
    MergedNumbered(t, added, Memory.Summary(id, ""), n + 2, cfg);
  }

  lemma LateNumbered(ms: seq<Message>, master: seq<Message>, added: seq<Message>, d: nat, note: Message, n: nat)
    requires ms == master + added && d <= |added| && |note.id| == n + 1
    requires forall i :: 0 <= i < |ms| ==> |ms[i].id| <= n
    ensures var merged := master + (added[d..] + [note]);
            forall i :: 0 <= i < |merged| ==> |merged[i].id| <= n + 1
  {
    var merged := master + (added[d..] + [note]);
    forall i | 0 <= i < |merged|
      ensures |merged[i].id| <= n + 1
    {
      if i < |master| {
        assert merged[i] == ms[i];
      } else if i < |merged| - 1 {
        assert merged[i] == ms[i + d];
      }
    }
  }

  lemma MergedNumbered(t: Thread, added: seq<Message>, note: Message, n: nat, cfg: Config)
    requires Numbered(t.sup.messages, n) && t.sup.messages == t.master.messages + added
    requires |note.id| == n + 1 && 1 <= cfg.policy.keep < |t.sup.messages|
    ensures Numbered(t.master.messages + (added[T.Dropped(added, cfg.policy.keep)..] + [note]), n + 1)
  {
    var d := T.Dropped(added, cfg.policy.keep);
    assert T.Sound(t.master.messages + (added[d..] + [note])) by {
      LongerIsNew(t.sup.messages, note.id, n);
      T.CompactedMerge(t.master.messages, added, cfg.policy.keep, note);
      T.MergedSound(t.master.messages, t.sup.messages, cfg.policy.keep, note);
    }
    LateNumbered(t.sup.messages, t.master.messages, added, d, note, n);
  }

  lemma HandleStep(h: History, t: Thread, n: nat, cfg: Config) returns (h': History)
    requires T.ValidHistory(h, cfg) && t == State(h, cfg) && t.pos == ErrorHandler && t.running
    requires t.master.error == "" && Numbered(t.master.messages, n + 3)
    ensures T.ValidHistory(h', cfg) && State(h', cfg) == t.(pos := Idle, running := false)
    ensures Written(h', cfg) == Written(h, cfg)
  {
    LongerIsNew(t.master.messages, Chain.Name(n + 3), n + 3);
    h' := Completes(h, t, Handles(Chain.Name(n + 3)), t.(pos := Idle, running := false), cfg);
  }

  /** A whole run lengthens the thread; on a long thread it leaves a summary at the end. */
  lemma WholeRun(h: History, t: Thread, n: nat, question: string, cfg: Config) returns (h': History, t': Thread)
    requires T.ValidHistory(h, cfg) && t == State(h, cfg) && Numbered(t.master.messages, n)
    requires !cfg.looksLikeLocalTime(question)
    ensures T.ValidHistory(h', cfg) && t' == State(h', cfg) && Numbered(t'.master.messages, n + 3)
    ensures |t.master.messages| < |t'.master.messages|
    ensures Memory.ShouldSummarize(|t.master.messages| + 2, cfg.policy) ==>
              t'.master.messages[|t'.master.messages| - 1].id in Written(h', cfg)
  {
    h', t' := Chats(h, t, n, question, cfg);
    if t'.pos == MemoryManager {
      assert t'.sup.error == "" by {
        T.Reachable(h', cfg);
      }
      h', t' := CompactStep(h', t', n, cfg);
    }
    h' := HandleStep(h', t', n, cfg);
    t' := State(h', cfg);
  }

  lemma {:induction false} LongThread(length: nat, question: string, cfg: Config)
    returns (h: History, t: Thread, n: nat)
    requires !cfg.looksLikeLocalTime(question)
    ensures T.ValidHistory(h, cfg) && t == State(h, cfg) && Numbered(t.master.messages, n)
    ensures |t.master.messages| >= length
  {
    if length == 0 {
      h, t, n := Start, NEW_THREAD, 0;
    } else {
      h, t, n := LongThread(length - 1, question, cfg);
      h, t := WholeRun(h, t, n, question, cfg);
      n := n + 3;
    }
  }

  /** With three or more kept messages some history is left with two summaries. */
  lemma TwoInAThread(question: string, cfg: Config) returns (h: History, id: Id)
    requires cfg.policy.trigger > 0 && cfg.policy.keep >= 3 && !cfg.looksLikeLocalTime(question)
    ensures ManagerRuns(h, id, cfg) && !LeavesOne(h, id, "", cfg)
  {
    var t, n;
    h, t, n := LongThread(Memory.Max(cfg.policy.trigger, cfg.policy.keep + 1), question, cfg);
    h, t := WholeRun(h, t, n, question, cfg);
    var t';
    h, t' := Chats(h, t, n + 3, question, cfg);
    id := Chain.Name(n + 5);
    var ms := t'.sup.messages;
    LongerIsNew(ms, id, n + 5);
    assert ms[|ms| - 3] == t.master.messages[|t.master.messages| - 1];
    SummaryBehindTurn(h, id, "", cfg, ms);
  }

  /**
   Every compaction leaves the supervisor's channel with one summary, in every history, exactly
   if at most two messages are kept. The defaults keep twelve.
   */
  lemma OneSummaryIff(question: string, cfg: Config)
    requires cfg.policy.trigger > 0 && cfg.policy.keep >= 1 && !cfg.looksLikeLocalTime(question)
    ensures cfg.policy.keep <= 2
            <==> forall h, id, text :: ManagerRuns(h, id, cfg) ==> LeavesOne(h, id, text, cfg)
  {
    if cfg.policy.keep <= 2 {
      forall h, id, text | ManagerRuns(h, id, cfg)
        ensures LeavesOne(h, id, text, cfg)
      {
        var ms := State(h, cfg).sup.messages;
        FewKeptAreNew(h, id, cfg, ms);
        LeavesOneIff(h, id, text, cfg, ms);
      }
    } else {
      var h, id := TwoInAThread(question, cfg);
    }
  }
}
