/**
 The orchestrator object: it compiles the graph once and advances the stored state of the
 threads it is called on. Everything proved about histories holds of what it stores.
 */
module Orchestrator {
  import opened Wrappers
  import opened Messages
  import opened AgentGraph
  import ApprovalSafety
  import Memory = MemoryManager
  import Loop = EvidenceLoop
  import W = ToolWiring

  /** What the graph is compiled from: the registered tools with their overrides, and the limits. */
  datatype Settings = Settings(tools: seq<W.Tool>, overrides: W.Overrides, looksLikeLocalTime: string -> bool,
                               policy: Memory.Policy, research: Loop.Setup, workspace: Loop.Setup, keepsResume: bool)

  /** The workspace agent is offered exactly if some tool is bound to it. */
  function ConfigOf(s: Settings): Config {
    Config(W.InBucket(s.tools, W.WORKSPACE, s.overrides) != [], s.looksLikeLocalTime,
           s.policy, s.research, s.workspace, s.keepsResume)
  }

  /** Workspace is entered only if some registered tool is dealt to it. */
  lemma WorkspaceNeedsATool(h: History, s: Settings) returns (t: W.Tool)
    requires ApprovalSafety.Enters(h, ConfigOf(s))
    ensures t in s.tools && W.WORKSPACE in W.BucketsFor(t.name, s.overrides)
  {
    var _, _ := ApprovalSafety.WorkspaceIsApproved(h, ConfigOf(s));
    t := W.SomeInBucket(s.tools, W.WORKSPACE, s.overrides);
  }

  /** With the wiring of start-up and no overrides: only if some server offers a tool. */
  lemma WorkspaceNeedsAServer(h: History, s: Settings, servers: seq<W.Server>, webSearch: bool)
    requires s.tools == W.BuiltIns(webSearch) + W.Discovered(servers) && s.overrides == map[]
    requires ApprovalSafety.Enters(h, ConfigOf(s))
    ensures W.Discovered(servers) != []
  {
    var _, _ := ApprovalSafety.WorkspaceIsApproved(h, ConfigOf(s));
    W.WiredPartition(servers, webSearch);
  }

  datatype ResumeResult = NotInterrupted | Ran(interrupted: bool)

  function ThreadOf(threads: map<string, Thread>, id: string): Thread {
    if id in threads then threads[id] else NEW_THREAD
  }

  /** One call: pending nodes run until the thread stops; running out of outcomes is a failure. */
  function Drive(t: Thread, outcomes: seq<Outcome>, cfg: Config): Thread
    decreases |outcomes|
  {
    if !t.running then t
    else if outcomes == [] then t.(running := false)
    else Drive(Advanced(t, outcomes[0], cfg), outcomes[1..], cfg)
  }

  function HistoryOf(log: map<string, History>, id: string): History {
    if id in log then log[id] else Start
  }

  /** The history a call adds: the completed nodes in order, and a failure if it was cut off. */
  function Journal(h: History, outcomes: seq<Outcome>, cfg: Config): History
    decreases |outcomes|
  {
    if !State(h, cfg).running then h
    else if outcomes == [] then Then(h, Crash)
    else Journal(Then(h, Advance(outcomes[0])), outcomes[1..], cfg)
  }

  /** A call is a stretch of history without a further invocation, and it always stops. */
  lemma {:induction false} DriveIsJournal(h: History, outcomes: seq<Outcome>, cfg: Config)
    ensures State(Journal(h, outcomes, cfg), cfg) == Drive(State(h, cfg), outcomes, cfg)
    ensures !Drive(State(h, cfg), outcomes, cfg).running
    ensures ApprovalSafety.Continues(h, Journal(h, outcomes, cfg))
    decreases |outcomes|
  {
    if State(h, cfg).running && outcomes != [] {
      var next := Then(h, Advance(outcomes[0]));
      DriveIsJournal(next, outcomes[1..], cfg);
      ApprovalSafety.ContinuesOn(h, next, Journal(h, outcomes, cfg));
    }
  }

  class MainGraphOrchestrator {
    var compiled: Option<Config>
    var threads: map<string, Thread>
    ghost var log: map<string, History>

    /** Every stored thread is the outcome of its own history under the compiled graph. */
    ghost predicate Valid()
      reads this
    {
      && threads.Keys == log.Keys
      && (compiled.None? ==> threads == map[])
      && (compiled.Some? ==> forall id :: id in threads ==>
            State(log[id], compiled.value) == threads[id] && !threads[id].running)
    }

    constructor ()
      ensures Valid() && compiled == None && threads == map[]
    {
      compiled, threads, log := None, map[], map[];
    }

    /** The graph of the settings at the first call serves every later call. */
    method Compile(settings: Settings) returns (cfg: Config)
      requires Valid()
      modifies this
      ensures Valid() && threads == old(threads) && log == old(log)
      ensures cfg == (if old(compiled).Some? then old(compiled).value else ConfigOf(settings))
      ensures compiled == Some(cfg)
    {
      if compiled.None? {
        var _, workspaceTools := W.PartitionTools(settings.tools, settings.overrides);
        compiled := Some(Config(|workspaceTools| > 0, settings.looksLikeLocalTime, settings.policy,
                                settings.research, settings.workspace, settings.keepsResume));
      }
      cfg := compiled.value;
    }

    /** The library's run loop over the pending nodes of one thread. */
    method Run(start: Thread, outcomes: seq<Outcome>, cfg: Config) returns (t: Thread)
      ensures t == Drive(start, outcomes, cfg)
    {
      t := start;
      var i := 0;
      while t.running && i < |outcomes|
        invariant i <= |outcomes|
        invariant Drive(start, outcomes, cfg) == Drive(t, outcomes[i..], cfg)
      {
        assert outcomes[i..][1..] == outcomes[i + 1..];
        t := Advanced(t, outcomes[i], cfg);
        i := i + 1;
      }
      if t.running {
        t := t.(running := false);
      }
    }

    method Invoke(sessionId: string, message: Message, outcomes: seq<Outcome>, settings: Settings)
      returns (interrupted: bool)
      requires Valid()
      modifies this
      ensures Valid()
      ensures compiled == Some(if old(compiled).Some? then old(compiled).value else ConfigOf(settings))
      ensures threads == old(threads)[sessionId :=
                Drive(Invoked(ThreadOf(old(threads), sessionId), message), outcomes, compiled.value)]
      ensures log == old(log)[sessionId :=
                Journal(Then(HistoryOf(old(log), sessionId), Event.Invoke(message)), outcomes, compiled.value)]
      ensures interrupted <==> IsPaused(threads[sessionId])
    {
      var cfg := Compile(settings);
      var before := ThreadOf(threads, sessionId);
      ghost var h := Then(HistoryOf(log, sessionId), Event.Invoke(message));
      DriveIsJournal(h, outcomes, cfg);
      var t := Run(Invoked(before, message), outcomes, cfg);
      threads := threads[sessionId := t];
      log := log[sessionId := Journal(h, outcomes, cfg)];
      interrupted := IsPaused(t);
    }

    /** A thread with nothing pending refuses; any other runs on with the decision. */
    method Resume(threadId: string, action: string, feedback: string, outcomes: seq<Outcome>, settings: Settings)
      returns (r: ResumeResult)
      requires Valid()
      modifies this
      ensures Valid()
      ensures compiled == Some(if old(compiled).Some? then old(compiled).value else ConfigOf(settings))
      ensures r.NotInterrupted? <==> !IsPaused(ThreadOf(old(threads), threadId))
      ensures r.NotInterrupted? ==> threads == old(threads) && log == old(log)
      ensures r.Ran? ==>
                && threads == old(threads)[threadId :=
                     Drive(Resumed(old(threads)[threadId], action, feedback, compiled.value), outcomes, compiled.value)]
                && log == old(log)[threadId :=
                     Journal(Then(old(log)[threadId], Event.Resume(action, feedback)), outcomes, compiled.value)]
                && (r.interrupted <==> IsPaused(threads[threadId]))
    {
      var cfg := Compile(settings);
      var before := ThreadOf(threads, threadId);
      if !IsPaused(before) {
        return NotInterrupted;
      }
      ghost var h := Then(log[threadId], Event.Resume(action, feedback));
      DriveIsJournal(h, outcomes, cfg);
      var t := Run(Resumed(before, action, feedback, cfg), outcomes, cfg);
      threads := threads[threadId := t];
      log := log[threadId := Journal(h, outcomes, cfg)];
      r := Ran(IsPaused(t));
    }
  }
}
