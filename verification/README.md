# Agent platform: a verified model

A Dafny model of the parts of the agent platform that hold state or arithmetic, and proofs of
what they keep over all inputs and all runs. `dafny verify dfyconfig.toml` checks everything.

## What is modelled

| module | models |
|---|---|
| `AgentGraph`, `Routing` | one conversation thread as a stepping state machine: the master graph, the supervisor graph inside it, the pause / resume protocol, and the routers that decide every edge |
| `ThreadSteps` | where each step of a thread leads, and what it appends and leaves alone |
| `ApprovalSafety` | when the workspace sub-graph may run, over every history |
| `Orchestrator` | the orchestrator object, its compiled graph and stored threads |
| `EvidenceLoop` | the plan / tools / collect / validate loop that researcher and workspace share |
| `Messages` | the id-keyed reducer of the message channels |
| `MemoryManager`, `ThreadMemory`, `ThreadSummaries` | one compaction, the two message channels of a thread, and the summaries they hold over every history |
| `CompactionChain` | the supervisor graph fed its own output, run after run |
| `Truncation` | the cap on tool output |
| `PathNormalizer`, `ToolArguments` | path rewriting, alone and over whole tool calls that pass it twice |
| `Store`, `Transactions`, `CallEffects`, `UnitOfWork` | the two tables, interleaved transactions over them, what each call does to them, and the objects behind a service call |
| `ToolWiring` | discovery, registry and partition of tools |
| `Decisions` | normalisation, validation and routing of the model's loop decisions |
| `Uuid`, `ExceptionChain`, `Projection`, `Text`, `Wrappers` | UUID version 7, the exception walk, the JSON projection, string operations, and optional values |

Model answers, tool outputs, failures, new ids, clocks and random bits are inputs: a theorem
holds whatever they are. Objects that update fields are classes, loops are methods proved
against specification functions, and the lemmas are about those functions.

Library contracts taken from their documentation: `operator.add` for the evidence channel; the
reducer written out in `Messages`; one tool message for each call, in order; `interrupt()` ends
the run and a resumed review reads the decision; a failed node stays pending. The one
behaviour left open is `Config.keepsResume`: whether a resume value given to a thread that
waits at another node is kept for a review reached later in the same call. All theorems hold
for both; `AllEntriesSafeIff` says what changes.

The transaction model gives every call one write, applied with its constraints when it commits;
reads see the committed tables of their moment; unchanged attributes are not written. A class
service call is the undisturbed case, and `SerialIsSchedule` makes it one of the interleavings.

## Where the code differs from its documentation

- `docs/agent-orchestration.md:176` says older messages are rolled into one summary. That holds
  for a graph that is fed its own output under the defaults. The stored thread never shrinks
  (`MasterOnlyGrows`), once it is long every reply adds another summary (`LongThreadsAlwaysSummarise`,
  `EachCompactionAddsOneSummary`), a long run loses its own oldest messages, and with the defaults
  even the compacted channel can hold several summaries (`OneSummaryIff`).
- `docs/configuration.md:126` gives the trigger as "at least"; the code needs strictly more than
  max(trigger, keep + 1) (`TriggerDiffersIff`). `docs/configuration.md:128` calls the character limit
  a summary cap; it cuts the text given to the summariser, not the summary (`LimitIsOnThePayload`).
- The truncation docstring (`app/modules/agent_orchestration/domain/tool_execution_policy.py:19`)
  promises a bounded payload; `CapRespected` says exactly when the bound holds, and `NoticeCount`
  that the notice understates what was dropped.
- Normalising a path twice is not always harmless: `NormalizeTwice` gives the exact condition
  and `SecondPassCanMove` an input.
- `docs/data-model.md:58` equates newest first with descending ids. Ids of one millisecond are
  ordered by their random fields (`OrderIsLexicographic`).
- The validators can still route to the reply-less end, exactly as `SilentEndIff` states.
- An approval can precede the delegation it approves where the library keeps resume values
  (`KeptApproval`, `AllEntriesSafeIff`).
- An update or rename can return although its field holds another call's value
  (`UpdateIsVisibleIff`, `UpdateCanBeInvisible`, `RenameIsVisibleIff`, `RenameCanBeInvisible`).
- A rejection does not stop a workspace execution that was approved and failed (`RejectionBlocksIff`,
  `RejectionCanRunOn`).
- The projection to JSON can lose an entry, exactly when two keys have one text (`NothingLostIff`,
  `EqualTextsCollapse`).
- A second decision normalisation can change a blank reason (`NormalizeTwice`).

## Model

| member | source | states |
|---|---|---|
| `ApprovalSafety.WorkspaceIsApproved` | app/modules/agent_orchestration/infrastructure/langgraph_engine/shared_nodes/human_review_node.py:17-39 | Over every history of a thread: workspace is entered only from the review and only when bound, by consuming an approval resumed since the last invocation; where the thread waited at the review, that resume came after the delegation that chose workspace |
| `ApprovalSafety.AllEntriesSafeIff` | app/modules/agent_orchestration/infrastructure/langgraph_engine/main_graph_builder.py:249-257 | Every entry into workspace, in every history, has an approval given after the delegation that chose it, iff resume values are not kept or workspace is not bound |
| `ApprovalSafety.ResumeFollowsIff` | app/modules/agent_orchestration/infrastructure/langgraph_engine/main_graph_builder.py:249-257 | A resume of an entry's run follows the delegation iff the thread was waiting at the review when it was given |
| `ApprovalSafety.OneEntryPerInvocation` | app/modules/agent_orchestration/infrastructure/langgraph_engine/main_graph_builder.py:130-143 | Between two entries into workspace there is always a new invocation, so a stale approval never serves twice |
| `ApprovalSafety.OneCompletionPerInvocation` | app/modules/agent_orchestration/infrastructure/langgraph_engine/subgraphs/supervisor/supervisor_graph.py:112-141 | Workspace completes at most once between invocations, whatever fails and is resumed in between |
| `ApprovalSafety.CompletionIsApproved` | app/modules/agent_orchestration/infrastructure/langgraph_engine/main_graph_builder.py:237-271 | Each completed workspace execution has its own delegation and approving resume since the last invocation |
| `ApprovalSafety.KeptApproval` | app/modules/agent_orchestration/infrastructure/langgraph_engine/main_graph_builder.py:249-257 | Where the library keeps a resume value, a thread whose delegation failed can be resumed with an approval that the later review consumes: workspace is entered and no approval since the invocation follows the delegation, all of them having been given at the delegation |
| `ApprovalSafety.RejectionEnds` | app/modules/agent_orchestration/domain/routing_rules/approval_router.py:37-43 | A review that holds any other action than the approval ends the run without workspace |
| `ApprovalSafety.RejectionEndsIff` | app/modules/agent_orchestration/infrastructure/langgraph_engine/shared_nodes/human_review_node.py:17-39 | In every call that begins with a rejection: a review reached in it takes the rejection and ends the run iff the thread was waiting at the review or resume values are kept; otherwise it asks anew |
| `ApprovalSafety.RejectionBlocksIff` | app/modules/agent_orchestration/infrastructure/langgraph_engine/main_graph_builder.py:237-271 | A rejection keeps workspace from running in its call iff the thread was not already at workspace |
| `ApprovalSafety.RejectionCanRunOn` | app/modules/agent_orchestration/infrastructure/langgraph_engine/main_graph_builder.py:249-257 | An approved workspace execution that failed and is resumed with a rejection runs on where it stopped |
| `ApprovalSafety.ApprovalLeadsIn` | app/modules/agent_orchestration/domain/routing_rules/approval_router.py:37-43 | A thread waiting at the review enters workspace once it is resumed with the approval |
| `ApprovalSafety.WorkspaceIsReachableIff` | app/modules/agent_orchestration/infrastructure/langgraph_engine/subgraphs/supervisor/supervisor_graph.py:54 | Some history enters workspace iff a workspace tool is bound |
| `ApprovalSafety.Reachable` | app/modules/agent_orchestration/infrastructure/langgraph_engine/subgraphs/supervisor/supervisor_graph.py:100-147 | In every reachable thread the pending node agrees with the chosen agent and the feedback: review implies workspace chosen and bound, workspace implies approved, no error is ever set |
| `ApprovalSafety.StepInv` | app/modules/agent_orchestration/infrastructure/langgraph_engine/subgraphs/supervisor/supervisor_graph.py:100-147 | Every event keeps that invariant and, but for an invocation, moves the pending node only forward |
| `ApprovalSafety.ReviewIsDelegated` | app/modules/agent_orchestration/infrastructure/langgraph_engine/subgraphs/supervisor/supervisor_graph.py:102-111 | A thread at the review had its workspace delegation since the last invocation |
| `ApprovalSafety.DecisionIsResumed` | app/modules/agent_orchestration/infrastructure/langgraph_engine/main_graph_builder.py:253-257 | A decision waiting to be consumed came with a resume of that action since the last invocation |
| `ApprovalSafety.AtMostFourNodes` | app/modules/agent_orchestration/infrastructure/langgraph_engine/subgraphs/supervisor/supervisor_graph.py:100-147 | A run visits at most four supervisor nodes, each at most once, in a fixed order |
| `Orchestrator.MainGraphOrchestrator.constructor` | app/modules/agent_orchestration/infrastructure/langgraph_engine/main_graph_builder.py:63-70 | A new orchestrator has no compiled graph and no threads |
| `Orchestrator.MainGraphOrchestrator.Compile` | app/modules/agent_orchestration/infrastructure/langgraph_engine/main_graph_builder.py:72-125 | The graph of the first call's settings serves all later calls; threads are untouched |
| `Orchestrator.MainGraphOrchestrator.Run` | app/modules/agent_orchestration/infrastructure/langgraph_engine/main_graph_builder.py:174 | The run loop over pending nodes computes the specified drive of the thread |
| `Orchestrator.MainGraphOrchestrator.Invoke` | app/modules/agent_orchestration/infrastructure/langgraph_engine/main_graph_builder.py:162-184 | Exactly the named thread changes: its approval, error and agent are reset, the turn appended, the run driven on; the result is interrupted iff a node is pending; the stored thread stays the state of its recorded history |
| `Orchestrator.MainGraphOrchestrator.Resume` | app/modules/agent_orchestration/infrastructure/langgraph_engine/main_graph_builder.py:237-271 | A thread is refused, unchanged, iff nothing is pending; otherwise exactly it runs on with the decision |
| `Orchestrator.DriveIsJournal` | app/modules/agent_orchestration/infrastructure/langgraph_engine/main_graph_builder.py:174 | One call is a stretch of history without another invocation, and ends with the thread stopped, so every theorem over histories applies to stored threads |
| `Orchestrator.WorkspaceNeedsATool` | app/modules/agent_orchestration/infrastructure/langgraph_engine/subgraphs/supervisor/supervisor_graph.py:54 | Workspace is entered, in any history of a compiled graph, only if some registered tool is dealt to it |
| `Orchestrator.WorkspaceNeedsAServer` | app/modules/agent_orchestration/infrastructure/langgraph_engine/main_graph_builder.py:89-90 | With start-up's wiring and no overrides, only if some server offers a tool |
| `ThreadSteps.DelegationLeads` | app/modules/agent_orchestration/infrastructure/langgraph_engine/subgraphs/supervisor/supervisor_graph.py:100-111 | A running delegation without an earlier error goes to the review, the researcher, chat or the end exactly as the chosen agent is workspace, researcher, chat or end, with nothing else changed; the researcher's loop starts at its plan on these messages without evidence |
| `ThreadSteps.ReviewLeads` | app/modules/agent_orchestration/infrastructure/langgraph_engine/shared_nodes/human_review_node.py:17-39 | In every history a resumed review enters workspace on the messages as they are if approved, and otherwise appends exactly the refusal, with the feedback as its note, and ends the run with the stored thread holding it |
| `ThreadSteps.LoopLeads` | app/modules/agent_orchestration/infrastructure/langgraph_engine/subgraphs/supervisor/supervisor_graph.py:55-68 | A loop makes each step under the settings of its own sub-graph; when it is over its messages are the supervisor's, which summarises or ends |
| `ThreadSteps.ChatLeads` | app/modules/agent_orchestration/infrastructure/langgraph_engine/subgraphs/supervisor/supervisor_graph.py:142-146 | A chat reply is appended as it is, and the supervisor summarises or ends |
| `ThreadSteps.InvocationLeads` | app/modules/agent_orchestration/infrastructure/langgraph_engine/main_graph_builder.py:130-143 | An invocation appends its turn to the stored thread and starts at the delegation with approval, error and agent reset |
| `ThreadSteps.ResumeLeads` | app/modules/agent_orchestration/infrastructure/langgraph_engine/main_graph_builder.py:249-257 | A resume is ignored unless a node is pending; a pending review gets exactly the action and the feedback |
| `ThreadSteps.HandlerLeads` | app/modules/agent_orchestration/infrastructure/langgraph_engine/shared_nodes/error_handler_node.py:13-26 | In every history the error handler finds no error, adds nothing and ends the run |
| `ThreadSteps.FailureStays` | app/modules/agent_orchestration/infrastructure/langgraph_engine/subgraphs/researcher/researcher_graph.py:91-95 | A failure stops the thread at the node it was in; a plan raises exactly on another error than a tool-format error, or when the second attempt fails too |
| `ThreadSteps.ResearcherIsReachable` | app/modules/agent_orchestration/infrastructure/langgraph_engine/subgraphs/supervisor/supervisor_graph.py:102-111 | For every first turn some history goes on to the researcher, whose loop starts on it |
| `Routing.TaskDelegator` | app/modules/agent_orchestration/infrastructure/langgraph_engine/subgraphs/supervisor/nodes/task_delegator.py:85-107 | The chain of overwritten conditions computes the agent of the specification function |
| `Routing.LastHumanPlainText` | app/modules/agent_orchestration/infrastructure/langgraph_engine/subgraphs/supervisor/nodes/task_delegator.py:33-46 | The reverse search returns the last human text, or the empty text |
| `Routing.DelegationTable` | app/modules/agent_orchestration/infrastructure/langgraph_engine/subgraphs/supervisor/nodes/task_delegator.py:85-107 | For every model answer, exactly when each agent is chosen; workspace iff it is bound and named (or named by its old name) |
| `Routing.NamesChoose` | app/modules/agent_orchestration/infrastructure/langgraph_engine/subgraphs/supervisor/nodes/task_delegator.py:85-98 | Each agent is chosen by its own name and workspace by its old one too, or chat where workspace is not bound; chat becomes researcher for a question about local time |
| `Routing.SpellingDoesNotCount` | app/modules/agent_orchestration/infrastructure/langgraph_engine/subgraphs/supervisor/nodes/task_delegator.py:85 | Outer blanks, letter case and dashes for underscores do not change the chosen agent |
| `Routing.CanonicalByCharacter` | app/modules/agent_orchestration/infrastructure/langgraph_engine/subgraphs/supervisor/nodes/task_delegator.py:85 | What each character of an answer is read as |
| `Routing.DelegationRoutes` | app/modules/agent_orchestration/infrastructure/langgraph_engine/subgraphs/supervisor/supervisor_graph.py:102-111 | Every delegation has a declared edge, and the review edge is taken iff there is no error and workspace was chosen (where every edge leads: ThreadSteps.DelegationLeads) |
| `Routing.ReviewRoutes` | app/modules/agent_orchestration/infrastructure/langgraph_engine/subgraphs/supervisor/supervisor_graph.py:112-121 | After a review of workspace only workspace and the end are possible: the researcher and chat edges are never taken |
| `Routing.DelegateEdgeExists` | app/modules/agent_orchestration/domain/routing_rules/approval_router.py:14-34 | For an arbitrary agent name, an edge exists iff there is an error or the name is one of seven |
| `EvidenceLoop.EvidenceExact` | app/modules/agent_orchestration/infrastructure/langgraph_engine/subgraphs/researcher/researcher_graph.py:147-168 | After any number of rounds the added messages are complete rounds (an AI turn with calls, one tool message for each) and at most a plain answer and a synthesis; the evidence is what the tools returned since entry, capped, in order, each once |
| `EvidenceLoop.EvidenceComplete` | app/modules/agent_orchestration/infrastructure/langgraph_engine/subgraphs/researcher/researcher_graph.py:97-105 | In every run evidence and the round still to be collected make up everything produced; at validation there is always evidence; at the end something was always added |
| `EvidenceLoop.LoopStep` | app/modules/agent_orchestration/infrastructure/langgraph_engine/subgraphs/workspace/workspace_graph.py:71-102 | Every step of either sub-graph keeps the shape of the added messages and adds exactly its own output to the evidence (where each step leads: EvidenceLoop.VerdictLeads and the rows after it) |
| `EvidenceLoop.VerdictLeads` | app/modules/agent_orchestration/infrastructure/langgraph_engine/subgraphs/researcher/researcher_graph.py:159-167 | A verdict on evidence records its queries and leads to the end after an earlier error, else to the reply iff nothing more is needed, to another plan iff more is needed and queries are named, and to the end iff none are |
| `EvidenceLoop.RoundsFollowVerdicts` | app/modules/agent_orchestration/infrastructure/langgraph_engine/subgraphs/workspace/workspace_graph.py:143-166 | In every run a further round is planned only behind a verdict that asks for more by naming queries, the reply is written only behind a plan without calls or a verdict that needs no more, and the loop ends only behind the reply or a verdict with an error or without queries |
| `EvidenceLoop.PlanLeads` | app/modules/agent_orchestration/infrastructure/langgraph_engine/subgraphs/researcher/researcher_graph.py:149-156 | The planner's answer is appended and followed by the tools iff it calls some, otherwise by the reply |
| `EvidenceLoop.ToolsLead` | app/modules/agent_orchestration/infrastructure/langgraph_engine/subgraphs/researcher/researcher_graph.py:157 | The tools' capped answers are appended and collected next |
| `EvidenceLoop.ReplyLeads` | app/modules/agent_orchestration/infrastructure/langgraph_engine/subgraphs/researcher/researcher_graph.py:168 | The reply is appended and the loop is over |
| `EvidenceLoop.OthersStay` | app/modules/agent_orchestration/infrastructure/langgraph_engine/subgraphs/researcher/researcher_graph.py:147-168 | An input the pending node does not wait for, and a failure, change nothing |
| `EvidenceLoop.EvidenceAtValidate` | app/modules/agent_orchestration/infrastructure/langgraph_engine/subgraphs/researcher/nodes/context_validator.py:33-37 | The validators' fallback for empty evidence is unreachable |
| `EvidenceLoop.TrailingIsLastRound` | app/modules/agent_orchestration/infrastructure/langgraph_engine/subgraphs/workspace/workspace_graph.py:95-102 | Collecting yields the last round's answers and no earlier ones |
| `EvidenceLoop.PlanWithRetry` | app/modules/agent_orchestration/infrastructure/langgraph_engine/subgraphs/researcher/researcher_graph.py:84-95 | The planner is asked twice exactly after a tool-format error in the first attempt; any other failure, and a second one, is raised |
| `EvidenceLoop.PlannerAnswersIff` | app/modules/agent_orchestration/infrastructure/langgraph_engine/subgraphs/researcher/researcher_graph.py:84-95 | The outcome is the first attempt's message, or the second's after a tool-format error, and raising is all else |
| `EvidenceLoop.CollectContext` | app/modules/agent_orchestration/infrastructure/langgraph_engine/subgraphs/researcher/researcher_graph.py:97-105 | The reverse loop returns the trailing tool contents in their original order |
| `EvidenceLoop.CappedOutputs` | app/modules/agent_orchestration/infrastructure/langgraph_engine/tool_output_cap.py:15-31 | A capped answer keeps its id, kind and calls; its text is unchanged iff capping is off, it fits, or it is its own notice; otherwise it has the cap's length, or that of the bare notice where there is no room |
| `Messages.MergeAppends` | app/modules/agent_orchestration/domain/states/base_state.py:12 | Merging messages the channel holds unchanged, followed by new ones, appends just the new ones |
| `Messages.FoldKeepsIds` | app/modules/agent_orchestration/domain/states/base_state.py:12 | A merge without removals never fails and loses no id |
| `Messages.RemovalsDelete` | app/modules/agent_orchestration/domain/states/base_state.py:12 | Removals delete exactly the messages with their ids, and are refused iff some id is unknown |
| `Messages.PutReplaces` | app/modules/agent_orchestration/domain/states/base_state.py:12 | A message whose id is present replaces that message in its place; any other is appended |
| `MemoryManager.CompactionConserves` | app/modules/agent_orchestration/infrastructure/langgraph_engine/shared_nodes/memory_manager_node.py:42-79 | The channel becomes its last `keep` messages, unchanged and in order, and one summary; ids stay distinct and the trigger no longer fires |
| `MemoryManager.CompactionUpdates` | app/modules/agent_orchestration/infrastructure/langgraph_engine/shared_nodes/memory_manager_node.py:46-79 | The removed ids are exactly those of the oldest messages, and exactly one summary is written |
| `MemoryManager.PayloadNeverEmpty` | app/modules/agent_orchestration/infrastructure/langgraph_engine/shared_nodes/memory_manager_node.py:60-62 | The payload of a non-empty prefix is never empty, so the branch that removes without summarising is unreachable |
| `MemoryManager.RemovableIdsExact` | app/modules/agent_orchestration/infrastructure/langgraph_engine/shared_nodes/memory_manager_node.py:51-58 | With ids present every message of the prefix is removable, so compaction is never skipped |
| `MemoryManager.PayloadReads` | app/modules/agent_orchestration/infrastructure/langgraph_engine/shared_nodes/memory_manager_node.py:29-33 | The summariser is given one line for each message, in order and joined by line breaks, or the beginning of that text within the limit |
| `MemoryManager.LineReads` | app/modules/agent_orchestration/infrastructure/langgraph_engine/shared_nodes/memory_manager_node.py:22-26 | A line is the message's role and its text without outer blanks, or a word for an empty one |
| `MemoryManager.SummaryReads` | app/modules/agent_orchestration/infrastructure/langgraph_engine/shared_nodes/memory_manager_node.py:76-77 | The summary is an AI message of the heading, a line break and the model's answer |
| `MemoryManager.CollectRemovableIds` | app/modules/agent_orchestration/infrastructure/langgraph_engine/shared_nodes/memory_manager_node.py:51-55 | The loop collects the non-empty ids in order |
| `MemoryManager.RemovableIdsAre` | app/modules/agent_orchestration/infrastructure/langgraph_engine/shared_nodes/memory_manager_node.py:51-55 | Only ids that are not blank can be removed, in the order of their messages |
| `MemoryManager.UpdatesInGeneral` | app/modules/agent_orchestration/infrastructure/langgraph_engine/shared_nodes/memory_manager_node.py:42-79 | With or without ids: nothing is returned iff there is no prefix or none of its messages has an id; otherwise a removal for each of its ids, and the summary |
| `MemoryManager.TriggerDiffersIff` | app/modules/agent_orchestration/domain/memory_policy.py:6-17 | The rule differs from "at least the trigger" exactly for totals that reach the trigger while the policy is off or the total is at most max(trigger, keep + 1) |
| `MemoryManager.LimitIsOnThePayload` | app/modules/agent_orchestration/infrastructure/langgraph_engine/shared_nodes/memory_manager_node.py:29-33 | The character limit bounds what the summariser is given; the updates are the same for every limit and the summary is as long as the model's answer |
| `MemoryManager.SummaryIsInternal` | app/modules/agent_orchestration/application/dtos/agent_result.py:43-47 | Every summary the manager writes is recognised as internal (and what else is: MemoryManager.InternalIff) |
| `MemoryManager.InternalIff` | app/modules/agent_orchestration/application/dtos/agent_result.py:43-47 | Internal are exactly the AI messages whose text is blanks followed by the words "Conversation summary:" and anything |
| `MemoryManager.FreshReplyIsShown` | app/modules/agent_orchestration/application/dtos/agent_result.py:60-65 | An AI message at the end that does not begin so is what the user is shown, whatever came before |
| `MemoryManager.OthersArePassedOver` | app/modules/agent_orchestration/application/dtos/agent_result.py:60-65 | It is still shown behind any messages that are no AI messages or begin so |
| `MemoryManager.SummaryIsSkipped` | app/modules/agent_orchestration/application/dtos/agent_result.py:60-65 | Appending a summary shows the same reply as before if one was visible and the summary otherwise, so it changes nothing iff a reply was visible or the same text was already shown |
| `MemoryManager.ReplySurvives` | app/modules/agent_orchestration/application/dtos/agent_result.py:60-65 | The visible reply is the same before and after compaction iff it is among the kept messages |
| `MemoryManager.FreshReplySurvives` | app/modules/agent_orchestration/infrastructure/langgraph_engine/subgraphs/supervisor/supervisor_graph.py:122-146 | A reply just given always survives |
| `CompactionChain.HistoryBounded` | app/modules/agent_orchestration/infrastructure/langgraph_engine/subgraphs/supervisor/supervisor_graph.py:122-147 | The supervisor graph fed its own output: a run that ends through a reply node leaves at most max(trigger, keep + 1) messages |
| `CompactionChain.DisabledKeepsEverything` | app/modules/agent_orchestration/domain/memory_policy.py:6-17 | The supervisor graph fed its own output: with a non-positive trigger or keep nothing is ever removed |
| `CompactionChain.SummariesStayInFront` | app/modules/agent_orchestration/infrastructure/langgraph_engine/shared_nodes/memory_manager_node.py:42-79 | The supervisor graph fed its own output, which the master graph does not do: under every policy a summary sits at index keep or earlier |
| `CompactionChain.AtMostOneSummaryIff` | app/modules/agent_orchestration/domain/memory_policy.py:6-24 | The supervisor graph fed its own output, which the master graph does not do: every chain of runs holds at most one summary iff trigger >= 2 * keep or keep <= 2; for stored threads see ThreadSummaries.OneSummaryIff |
| `CompactionChain.SummaryAtKeep` | app/modules/agent_orchestration/domain/memory_policy.py:6-24 | The supervisor graph fed its own output, which the master graph does not do: under such a policy the one summary sits exactly at index keep |
| `CompactionChain.TwoSummaries` | app/modules/agent_orchestration/domain/memory_policy.py:6-24 | The supervisor graph fed its own output: under any other policy two runs of stated lengths leave two summaries |
| `CompactionChain.OneRun` | app/modules/agent_orchestration/infrastructure/langgraph_engine/shared_nodes/memory_manager_node.py:42-79 | The supervisor graph fed its own output: one run appends its turn and, when it compacts, keeps the last `keep` messages and its own summary |
| `ThreadMemory.MasterOnlyGrows` | app/modules/agent_orchestration/infrastructure/langgraph_engine/main_graph_builder.py:112-118 | The stored thread only ever grows: the supervisor's list is merged back without its removals |
| `ThreadMemory.SupervisorIsBounded` | app/modules/agent_orchestration/infrastructure/langgraph_engine/subgraphs/supervisor/supervisor_graph.py:122-147 | In every history the supervisor's own channel is bounded after a run through a reply node |
| `ThreadMemory.LongThreadsAlwaysSummarise` | app/modules/agent_orchestration/infrastructure/langgraph_engine/subgraphs/supervisor/supervisor_graph.py:122-146 | Once the stored thread is over the bound, every later reply leads to the memory manager |
| `ThreadMemory.EachCompactionAddsOneSummary` | app/modules/agent_orchestration/infrastructure/langgraph_engine/main_graph_builder.py:112-118 | Every completed memory-manager step keeps all the stored thread had, adds exactly one summary at its end, and loses exactly those of the run's own messages that stand before the last `keep` |
| `ThreadMemory.StoredReplySurvives` | app/modules/agent_orchestration/application/dtos/agent_result.py:60-65 | What the stored thread shows after the memory manager ran is the reply just given, although the summary and re-merged messages follow it |
| `ThreadMemory.StoredReplySurvivesIff` | app/modules/agent_orchestration/application/dtos/agent_result.py:60-65 | In every history the visible reply is what the stored thread shows after the memory manager ran iff it does not stand among the run's messages that are lost, or the reply read instead has the same text |
| `ThreadMemory.StoredReply` | app/modules/agent_orchestration/application/dtos/agent_result.py:60-65 | What the stored thread shows then in each case: the visible reply, the last one from before the run, or the summary |
| `ThreadMemory.MergeCompacted` | app/modules/agent_orchestration/infrastructure/langgraph_engine/main_graph_builder.py:112-118 | Merging a compacted list back keeps all the master had, then the new messages the compaction kept, then the summary |
| `ThreadMemory.Reachable` | app/modules/agent_orchestration/infrastructure/langgraph_engine/main_graph_builder.py:112-118 | In every history both channels have distinct ids and the supervisor's extends the master's |
| `ThreadSummaries.OneSummaryIff` | app/modules/agent_orchestration/infrastructure/langgraph_engine/shared_nodes/memory_manager_node.py:42-79 | In every history of a thread every compaction leaves the supervisor's channel with exactly one summary iff at most two messages are kept (the defaults keep twelve), given that some question does not ask for the local time |
| `ThreadSummaries.LeavesOneIff` | app/modules/agent_orchestration/infrastructure/langgraph_engine/shared_nodes/memory_manager_node.py:46-79 | For any completed compaction: exactly one summary is left iff none of the kept messages is an earlier one |
| `ThreadSummaries.SummaryBehindTurn` | app/modules/agent_orchestration/infrastructure/langgraph_engine/main_graph_builder.py:112-118 | A channel that ends in an earlier summary, a human turn and a reply is left with more than one |
| `ThreadSummaries.TwoInAThread` | app/modules/agent_orchestration/infrastructure/langgraph_engine/main_graph_builder.py:112-118 | For every policy that keeps three or more such a history exists, from a new thread on |
| `ThreadSummaries.RunsHaveAnOpenTurn` | app/modules/agent_orchestration/infrastructure/langgraph_engine/main_graph_builder.py:130-143 | During a run the stored thread ends in a message that is no summary, the turn the run was invoked with |
| `ThreadSummaries.WrittenIsStored` | app/modules/agent_orchestration/infrastructure/langgraph_engine/main_graph_builder.py:112-118 | Every summary ever written is still in the stored thread |
| `Truncation.TruncationSize` | app/modules/agent_orchestration/domain/tool_execution_policy.py:33-41 | With d the digits of the excess: length exactly the cap and a prefix of the text when the cap is at least 38 + d, otherwise the bare notice of length 35 + d |
| `Truncation.NoticeReads` | app/modules/agent_orchestration/domain/tool_execution_policy.py:37 | The notice's words around the decimal digits of the count |
| `Truncation.StrippedSuffix` | app/modules/agent_orchestration/domain/tool_execution_policy.py:37-40 | Stripping the suffix removes exactly its two line breaks |
| `Truncation.CapRespected` | app/modules/agent_orchestration/domain/tool_execution_policy.py:16-41 | The documented bound holds iff the text fits or the cap is at least 35 + d |
| `Truncation.TruncationChanges` | app/modules/agent_orchestration/domain/tool_execution_policy.py:33-41 | A text over the cap comes out unchanged iff it is its own notice |
| `Truncation.NoticeCount` | app/modules/agent_orchestration/domain/tool_execution_policy.py:36-41 | The count in the notice is the excess over the cap; the characters really dropped are 37 + d more |
| `Truncation.IdempotentWithRoom` | app/modules/agent_orchestration/domain/tool_execution_policy.py:33-41 | Whenever the bound is met a second truncation changes nothing |
| `Truncation.RepeatSettles` | app/modules/agent_orchestration/domain/tool_execution_policy.py:33-41 | For every cap and text repeated truncation reaches a fixed point |
| `PathNormalizer.NormalizeIsDestination` | app/infrastructure/mcp_gateways/path_interceptor.py:39-91 | Every input is unchanged or becomes the stated resolved path: a relative one unless it leaves the sandbox, an absolute one inside, a file of the parent directory under its own name |
| `PathNormalizer.RelativeIsMovedIff` | app/infrastructure/mcp_gateways/path_interceptor.py:56-62 | A relative path that climbs k folders and then enters names is moved to the folder reached iff the names begin with the sandbox's folders it left, in particular if it does not climb; otherwise it is unchanged |
| `PathNormalizer.ClimbingOutIsLeftAlone` | app/infrastructure/mcp_gateways/path_interceptor.py:56-62 | A relative path that climbs out of the sandbox to another folder or file is returned unchanged |
| `PathNormalizer.TrimUnwraps` | app/infrastructure/mcp_gateways/path_interceptor.py:47 | Blanks around double quotes around apostrophes are removed from an input, and nothing else |
| `Text.SpacesAre` | app/infrastructure/mcp_gateways/path_interceptor.py:47 | Which characters count as blanks |
| `PathNormalizer.RelativeSnoc` | app/infrastructure/mcp_gateways/path_interceptor.py:57-58 | A slash or a backslash adds a component to a relative path, unless the component is empty or a dot |
| `PathNormalizer.LeadingSlashIsDropped` | app/infrastructure/mcp_gateways/path_interceptor.py:57 | Leading slashes and backslashes of a relative path do not count |
| `PathNormalizer.DestinationInside` | app/infrastructure/mcp_gateways/path_interceptor.py:31-36 | Every emitted path is resolved and lies in the sandbox |
| `PathNormalizer.FolderRuleIsDead` | app/infrastructure/mcp_gateways/path_interceptor.py:84-89 | With the roots in use the folder-name rule never applies |
| `PathNormalizer.ResolveLoop` | app/infrastructure/mcp_gateways/path_interceptor.py:31-36 | The stack loop computes lexical resolution, which the laws of the next rows determine |
| `PathNormalizer.DotsUndo` | app/infrastructure/mcp_gateways/path_interceptor.py:33-34 | Two dots undo the plain name before them |
| `PathNormalizer.DotsAtRoot` | app/infrastructure/mcp_gateways/path_interceptor.py:33-34 | Two dots at the root stay there |
| `PathNormalizer.DotStays` | app/infrastructure/mcp_gateways/path_interceptor.py:33-34 | A dot, or an empty component, changes nothing |
| `PathNormalizer.NameEnters` | app/infrastructure/mcp_gateways/path_interceptor.py:33-34 | A plain name is entered |
| `PathNormalizer.ResolveStages` | app/infrastructure/mcp_gateways/path_interceptor.py:33-34 | Resolving in two stages is resolving at once |
| `PathNormalizer.PartsOfRender` | app/infrastructure/mcp_gateways/path_interceptor.py:31-36 | Writing a resolved path as text and reading it back is the identity |
| `PathNormalizer.NormalizeTwice` | app/infrastructure/mcp_gateways/path_interceptor.py:39-91 | Normalising twice is normalising once iff the input is left alone, or the emitted path does not end in whitespace or a quote, or its trimmed form resolves above the sandbox |
| `PathNormalizer.SecondPass` | app/infrastructure/mcp_gateways/path_interceptor.py:39-91 | The same for an arbitrary path inside the sandbox |
| `PathNormalizer.TrimmedAgain` | app/infrastructure/mcp_gateways/path_interceptor.py:47 | Trimming an emitted path again can only shorten its last component |
| `PathNormalizer.SecondPassCanMove` | app/infrastructure/mcp_gateways/path_interceptor.py:39-62 | For every sandbox there is an input that the second pass moves |
| `PathNormalizer.StdioRootsAreClean` | app/infrastructure/mcp_gateways/path_interceptor.py:163-177 | The configured roots are resolved and the project root is the sandbox's parent |
| `PathNormalizer.SandboxIsLastArgument` | app/infrastructure/mcp_gateways/path_interceptor.py:163-177 | The last argument gives the sandbox, from the working directory if relative, and its parent is the project root |
| `ToolArguments.DoubleNormalization` | app/infrastructure/mcp_gateways/path_interceptor.py:206-226 | The handler behind wrapper and interceptor chain gets the arguments of one application with the server's own roots iff a second pass leaves every path text alone; a server without sandbox gets its arguments untouched |
| `ToolArguments.ChainIsOwnInterceptor` | app/infrastructure/mcp_gateways/path_interceptor.py:146-160 | Of the whole chain only the server's own interceptor acts |
| `ToolArguments.FixedTwice` | app/infrastructure/mcp_gateways/path_interceptor.py:94-130 | Rewriting the arguments twice is once iff a second pass leaves every path text alone |
| `ToolArguments.NormalizeToolArgs` | app/infrastructure/mcp_gateways/path_interceptor.py:94-130 | The loop over the keys rewrites each value independently, and no key is lost or added |
| `ToolArguments.FixList` | app/infrastructure/mcp_gateways/path_interceptor.py:114-124 | The list loop rewrites exactly the text items, in place and in order |
| `ToolArguments.TextArgument` | app/infrastructure/mcp_gateways/path_interceptor.py:18-28 | A text is normalised under exactly the seven keys |
| `ToolArguments.ListArgument` | app/infrastructure/mcp_gateways/path_interceptor.py:114-125 | A list is looked into under `paths` only, where every text is normalised and the rest left |
| `ToolArguments.SandboxedIff` | app/infrastructure/mcp_gateways/path_interceptor.py:180-185 | A server has a sandbox iff it runs over stdio with arguments |
| `Transactions.InterleavingIsReplay` | app/infrastructure/database/postgres/unit_of_work.py:21-41 | Every interleaving of calls equals running, in commit order, one write of exactly each call that returned, and that write is the one its call asks for given the tables it read; a call that raised or is unfinished wrote nothing |
| `Transactions.AlwaysValid` | app/infrastructure/database/postgres/models/user_model.py:14-32 | In every interleaving the committed tables have distinct e-mails, well-formed rows, and sessions owned by existing users |
| `CallEffects.EveryStepIsAnEffect` | app/modules/users/use_cases/user_service.py:106-141 | In every interleaving the committed tables change only in the step in which a call returns, and then exactly as that call says: deletion removes the row and that user's sessions only, update and rename change one row, only in named fields that differed from what was read, and its update time |
| `CallEffects.ReturnHasEffect` | app/modules/sessions/use_cases/session_service.py:16-51 | A call that returns has read the tables before and has its effect in that step |
| `CallEffects.UpdateIsVisibleIff` | app/modules/users/use_cases/user_service.py:114-133 | A returned update leaves its fields at the values asked for iff the row still exists and no field that already looked right when read was changed by another call since |
| `CallEffects.RenameIsVisibleIff` | app/modules/sessions/use_cases/session_service.py:34-43 | The same for a rename |
| `CallEffects.UpdateCanBeInvisible` | app/modules/users/use_cases/user_service.py:124-132 | For every user a schedule in which an update returns and the row holds another call's name |
| `CallEffects.RenameCanBeInvisible` | app/modules/sessions/use_cases/session_service.py:40-43 | For every session a schedule in which a rename returns and the row holds another call's title |
| `CallEffects.OnlyOwnersChangeSessions` | app/modules/sessions/use_cases/session_service.py:34-51 | With new ids for new sessions, in every interleaving a committed session changes or goes only by its owner's rename or deletion of it, or the owner's own deletion |
| `Transactions.EveryTransactionTracks` | app/modules/users/use_cases/user_service.py:44-57 | Where a transaction stands in a schedule always follows from its call and the tables of its first read |
| `Transactions.StepInv` | app/infrastructure/database/postgres/unit_of_work.py:21-41 | Every step of an interleaving keeps these constraints |
| `Transactions.SerialIsSchedule` | app/modules/users/use_cases/user_service.py:44-57 | An undisturbed call is one of the interleavings |
| `Transactions.SerialConflicts` | app/modules/users/use_cases/user_service.py:106-133 | Undisturbed, a database conflict is raised iff a new id is taken, a session's user is missing, or an update to the empty address (which skips the check) hits a taken one |
| `CallEffects.RegisterEnds` | app/modules/users/use_cases/user_service.py:44-57 | Undisturbed: returns iff the address is free, the row well-formed and the id new; already exists iff the address is taken; invalid iff it is free and the row malformed |
| `CallEffects.UpdateEnds` | app/modules/users/use_cases/user_service.py:106-133 | Undisturbed: not found iff the row is missing; already exists iff a new, non-empty address is another user's; invalid iff that check passes and the row asked for is malformed; otherwise returns, unless the empty address is taken |
| `CallEffects.DeleteUserEnds` | app/modules/users/use_cases/user_service.py:135-141 | Undisturbed: returns iff the row exists, sessions or not, and is not found otherwise |
| `CallEffects.CreateSessionEnds` | app/modules/sessions/use_cases/session_service.py:16-21 | Undisturbed: invalid iff the title is over 255 characters; otherwise returns iff the id is new and the user exists |
| `CallEffects.RenameSessionEnds` | app/modules/sessions/use_cases/session_service.py:34-43 | Undisturbed: not found unless the session exists and is owned; then invalid iff the title is over 255 characters; otherwise returns |
| `CallEffects.DeleteSessionEnds` | app/modules/sessions/use_cases/session_service.py:45-51 | Undisturbed: returns iff the session exists and is owned, and is not found otherwise |
| `CallEffects.SerialHasEffect` | app/modules/users/use_cases/user_service.py:44-57 | Undisturbed: a call that returns has its effect on the tables it read, and one that raises has none |
| `CallEffects.AbortRaises` | app/infrastructure/database/postgres/unit_of_work.py:27-35 | An aborted transaction raises and changes nothing, and one that has ended stays as it is |
| `Store.ApplyKeepsValid` | app/infrastructure/database/postgres/models/session_model.py:14-32 | Every write that the database accepts keeps the constraints |
| `Store.RemoveUserRemovesExactly` | app/infrastructure/database/postgres/models/user_model.py:32 | The single write of a user deletion: that row and exactly that user's sessions go (which calls commit it: CallEffects) |
| `Store.PatchUserTouchesOnly` | app/infrastructure/database/postgres/repositories/user_repository.py:57-66 | The single write of an update: one row, the patched fields and, if there are any, the update time (which calls commit it: CallEffects) |
| `Store.PatchSessionTouchesOnly` | app/infrastructure/database/postgres/repositories/session_repository.py:52-58 | The single write of a rename: one row, its title and update time if a title is given (which calls commit it: CallEffects) |
| `Store.PatchesOfDifferentFieldsCommute` | app/infrastructure/database/postgres/repositories/user_repository.py:57-66 | Two updates of one row with disjoint fields and one clock value commute |
| `Store.PatchesOfDifferentFieldsJoin` | app/infrastructure/database/postgres/repositories/user_repository.py:57-66 | Two updates of one row with disjoint fields, each at its own time: if each could be made both can, and the row has the fields of both and the time of the later one that changed something |
| `UnitOfWork.UserService.Register` | app/modules/users/use_cases/user_service.py:44-57 | Outcome and committed tables are those of the undisturbed call; the row returned is the row stored |
| `UnitOfWork.UserService.GetUser` | app/modules/users/use_cases/user_service.py:99-104 | The stored row or not found, and nothing is committed |
| `UnitOfWork.UserService.UpdateUser` | app/modules/users/use_cases/user_service.py:106-133 | Outcome and committed tables are those of the undisturbed call; the row returned is the row stored |
| `UnitOfWork.UserService.DeleteUser` | app/modules/users/use_cases/user_service.py:135-141 | Outcome and committed tables are those of the undisturbed call (which outcome: CallEffects.DeleteUserEnds; which effect: CallEffects.SerialHasEffect) |
| `UnitOfWork.SessionService.CreateSession` | app/modules/sessions/use_cases/session_service.py:16-21 | Outcome and committed tables are those of the undisturbed call; the row returned is the row stored |
| `UnitOfWork.SessionService.ListSessions` | app/modules/sessions/use_cases/session_service.py:23-25 | Exactly the user's sessions, each once, the latest first; nothing is committed |
| `UnitOfWork.SessionService.GetSession` | app/modules/sessions/use_cases/session_service.py:27-32 | The row iff it exists and is owned; nothing is committed |
| `UnitOfWork.SessionService.RenameSession` | app/modules/sessions/use_cases/session_service.py:34-43 | Outcome and committed tables are those of the undisturbed call; the row returned is the row stored |
| `UnitOfWork.SessionService.DeleteSession` | app/modules/sessions/use_cases/session_service.py:45-51 | Outcome and committed tables are those of the undisturbed call |
| `UnitOfWork.SqlAlchemyUnitOfWork.Enter` | app/infrastructure/database/postgres/unit_of_work.py:21-25 | Entering gives a new session that sees the committed tables |
| `UnitOfWork.SqlAlchemyUnitOfWork.Exit` | app/infrastructure/database/postgres/unit_of_work.py:27-35 | A block left by an exception is rolled back to the committed tables |
| `UnitOfWork.SqlAlchemyUnitOfWork.Commit` | app/infrastructure/database/postgres/unit_of_work.py:37-38 | The session's tables become the committed ones |
| `UnitOfWork.UserRepository.GetByEmail` | app/infrastructure/database/postgres/repositories/user_repository.py:41-44 | The row with the address, or the certainty that none has it |
| `UnitOfWork.UserRepository.Add` | app/infrastructure/database/postgres/repositories/user_repository.py:51-55 | The row is inserted into the session, or a constraint refuses it and nothing changes |
| `UnitOfWork.UserRepository.Update` | app/infrastructure/database/postgres/repositories/user_repository.py:57-66 | Missing row, malformed, conflicting or written: only differing attributes, and the row is read back; nothing changes otherwise |
| `UnitOfWork.UserRepository.Delete` | app/infrastructure/database/postgres/repositories/user_repository.py:68-72 | The user and the sessions are removed if the row exists, otherwise nothing changes |
| `UnitOfWork.SessionRepository.ListByUser` | app/infrastructure/database/postgres/repositories/session_repository.py:37-44 | Exactly the user's rows, each once, the latest first |
| `UnitOfWork.SessionRepository.Add` | app/infrastructure/database/postgres/repositories/session_repository.py:46-50 | The row is inserted, or its id or missing user refuses it and nothing changes |
| `UnitOfWork.SessionRepository.Update` | app/infrastructure/database/postgres/repositories/session_repository.py:52-58 | A missing row and a malformed title are refused unchanged, a differing title is written |
| `UnitOfWork.SessionRepository.Delete` | app/infrastructure/database/postgres/repositories/session_repository.py:60-64 | The row is removed if it exists |
| `ToolWiring.WireTools` | app/api/dependencies.py:64-123 | End to end: the wiring succeeds iff discovered names are distinct, loses no tool, and with no overrides gives the researcher exactly the built-ins and the workspace exactly the discovered tools, in registration order |
| `ToolWiring.Bootstrap` | app/modules/agent_orchestration/infrastructure/bootstrap/mcp_bootstrap.py:24-54 | Discovery fails iff two tools would share a name; otherwise it returns all, in order, under distinct names |
| `ToolWiring.AddServer` | app/modules/agent_orchestration/infrastructure/bootstrap/mcp_bootstrap.py:31-51 | The inner loop: the same for one server against the names seen so far |
| `ToolWiring.KeptApartIff` | app/modules/agent_orchestration/infrastructure/bootstrap/mcp_bootstrap.py:20-21 | A server name is kept apart from all separable ones for every tool iff it has no double underscore and does not end in an underscore |
| `ToolWiring.SeparableServersNeverCollide` | app/modules/agent_orchestration/infrastructure/bootstrap/mcp_bootstrap.py:20-21 | Between separable servers only one server's own repeated tool collides |
| `ToolWiring.InseparableCollides` | app/modules/agent_orchestration/infrastructure/bootstrap/mcp_bootstrap.py:35-41 | Any other name collides with a separable one, for every tool |
| `ToolWiring.DiscoveredIsNotBuiltIn` | app/api/dependencies.py:113-121 | No discovered tool can have a built-in's name, so the registry's check never fires on discovered tools |
| `ToolWiring.BuildRegistry` | app/api/dependencies.py:64-123 | On any tool list the registry is built iff names are distinct and not built-in, and then holds the built-ins followed by that list |
| `ToolWiring.BuiltInNames` | app/api/dependencies.py:79-106 | Web search is registered iff its key is set, the other two built-ins always, in this order |
| `ToolWiring.RenamedReads` | app/modules/agent_orchestration/infrastructure/bootstrap/mcp_bootstrap.py:44-47 | Discovery gives a tool the server's prefix in name and description and leaves it the same tool |
| `ToolWiring.DiscoveredSnoc` | app/modules/agent_orchestration/infrastructure/bootstrap/mcp_bootstrap.py:31-51 | The tools of each further server come last, renamed one by one in their order |
| `ToolWiring.RegisterAll` | app/api/dependencies.py:113-121 | The checked loop registers all tools in order iff no name repeats or is taken |
| `ToolWiring.ToolRegistry.Register` | app/modules/agent_orchestration/infrastructure/registries/tool_registry.py:14-15 | A new name is appended, a known name keeps its place and gets the new tool |
| `ToolWiring.ToolRegistry.GetTools` | app/modules/agent_orchestration/infrastructure/registries/tool_registry.py:17-21 | Refused iff some name is unknown; otherwise the tools in the order asked for |
| `ToolWiring.ToolRegistry.ListAvailable` | app/modules/agent_orchestration/infrastructure/registries/tool_registry.py:23-24 | The names of the registered tools in registration order, each once |
| `ToolWiring.ListedNamesFind` | app/modules/agent_orchestration/infrastructure/langgraph_engine/main_graph_builder.py:89 | Asking for the listed names yields the whole registry in order |
| `ToolWiring.PartitionTools` | app/modules/agent_orchestration/infrastructure/langgraph_engine/tool_partition.py:28-44 | Each list holds exactly its bucket's tools in their order, under any override table |
| `ToolWiring.InBucketIff` | app/modules/agent_orchestration/infrastructure/langgraph_engine/tool_partition.py:13-25 | A tool is in a bucket iff its name's override says so or, without one, by being a built-in |
| `ToolWiring.DefaultPartition` | app/modules/agent_orchestration/infrastructure/langgraph_engine/tool_partition.py:13-25 | With no overrides built-ins go to the researcher only and all others to workspace only |
| `ToolWiring.WiredPartition` | app/modules/agent_orchestration/infrastructure/langgraph_engine/tool_partition.py:28-44 | Of start-up's tools the researcher gets exactly the built-ins and workspace exactly the discovered ones |
| `Uuid.Uuid7` | app/shared/uuid_utils.py:10-23 | The or-ed value is the layout of section 5.7 of RFC 9562 and is below 2^128 |
| `Uuid.FieldsRecovered` | app/shared/uuid_utils.py:16-21 | Shifting and masking recover the timestamp, version 7, variant 10 and both random fields |
| `Uuid.OrderIsLexicographic` | app/shared/uuid_utils.py:16-21 | Packing is injective, and numeric order is the lexicographic order of the fields |
| `Uuid.LaterSortsLater` | app/shared/uuid_utils.py:12-17 | A later millisecond sorts later until the 48 bits wrap |
| `Uuid.OrDisjoint` | app/shared/uuid_utils.py:17-21 | Or-ing a number below 2^k into a multiple of 2^k adds it |
| `Uuid.Split` | app/shared/uuid_utils.py:16-17 | Shifting by k and masking with 2^k - 1 recover the two parts of a sum |
| `Decisions.NeverEndsSilently` | app/modules/agent_orchestration/domain/routing_rules/researcher_router.py:10-17 | A loop whose verdicts come from answers without an explicit flag never ends without a plain AI reply, in every run |
| `Decisions.SilentEndIff` | app/modules/agent_orchestration/domain/routing_rules/researcher_router.py:10-17 | Seen on the answer the model gave: a valid one takes the reply-less `end` edge iff no name of the list has a truthy value and it asks for more, by a flag that reads as true or, without the flag, by the first other name present; so never without an explicit flag |
| `Decisions.DerivedFlag` | app/modules/agent_orchestration/domain/schemas/research_decision.py:34-61 | Without an explicit flag the derived one is true iff some name of the list has a truthy value |
| `Decisions.SilentEndHappens` | app/modules/agent_orchestration/domain/schemas/research_decision.py:34-61 | A concrete answer that takes the `end` edge |
| `Decisions.NormalizeTwice` | app/modules/agent_orchestration/domain/schemas/research_decision.py:57-58 | A second normalisation changes nothing iff, when the chosen reason is blank, the next one is blank too |
| `Decisions.NormalizeTwiceCanDiffer` | app/modules/agent_orchestration/domain/schemas/research_decision.py:57-58 | A blank reason is replaced by the default text on the second pass |
| `Decisions.StepsNormalize` | app/modules/agent_orchestration/domain/schemas/research_decision.py:34-63 | The source's order of overwrites (early flag, list, reason, late flag) yields the specified object for both schemas |
| `Decisions.NormalizeResearch` | app/modules/agent_orchestration/domain/schemas/research_decision.py:27-63 | The research normalizer computes the specified object; anything but an object is returned as it is |
| `Decisions.NormalizeWorkspace` | app/modules/agent_orchestration/domain/schemas/research_decision.py:84-127 | The workspace normalizer computes the specified object; anything but an object is returned as it is |
| `Decisions.NormalizeList` | app/modules/agent_orchestration/domain/schemas/research_decision.py:43-55 | The for/else loop takes the first truthy name of the list, wrapping a single value |
| `Decisions.ResearchNames` | app/modules/agent_orchestration/domain/schemas/research_decision.py:43-55 | The research list is the first truthy of its four names in this order |
| `Decisions.WorkspaceNames` | app/modules/agent_orchestration/domain/schemas/research_decision.py:100-119 | The workspace list is the first truthy of its five names in this order |
| `Decisions.ListHolds` | app/modules/agent_orchestration/domain/schemas/research_decision.py:43-55 | The list holds that value's items in their order, or the value itself as one text, or nothing |
| `Decisions.FlagReads` | app/modules/agent_orchestration/domain/schemas/research_decision.py:34-41 | Without the flag's own key the first of its other names present decides, by its truth or its opposite, and without any the list |
| `Decisions.TextsIff` | app/modules/agent_orchestration/domain/schemas/research_decision.py:18-21 | Validation takes a list iff all its items are texts, and keeps them in order |
| `Decisions.ReasonReads` | app/modules/agent_orchestration/domain/schemas/research_decision.py:57-58 | The reason is the first truthy of its three names, without outer blanks, or the default words |
| `Decisions.TruthyIff` | app/modules/agent_orchestration/domain/schemas/research_decision.py:43-57 | Which values count as false: none, false, zero and the empty text, list and object |
| `Decisions.NormalizeReason` | app/modules/agent_orchestration/domain/schemas/research_decision.py:57-58 | The reason is the stripped text of the first truthy of three keys, or the default |
| `Decisions.FirstTruthy` | app/modules/agent_orchestration/domain/schemas/research_decision.py:46-57 | A truthy value is found iff one of the keys has one |
| `ExceptionChain.Walk` | app/modules/agent_orchestration/application/agent_error_detail.py:25-33 | On every finite graph of exceptions, cycles included, the walk ends with the maximal simple path from its argument |
| `ExceptionChain.CauseComesFirst` | app/modules/agent_orchestration/application/agent_error_detail.py:32 | A cause comes before a context, and a context counts only without a cause |
| `ExceptionChain.MaximalPathIsUnique` | app/modules/agent_orchestration/application/agent_error_detail.py:25-33 | There is one such path only |
| `ExceptionChain.PathIsClosure` | app/modules/agent_orchestration/application/agent_error_detail.py:25-33 | The path lists exactly the smallest set that holds the argument and is closed under links |
| `Projection.JsonifyTwice` | app/modules/agent_orchestration/infrastructure/langgraph_engine/mappers/state_mapper.py:104-115 | Projecting twice is projecting once iff the reported messages hold plain tool calls |
| `Projection.JsonifyPlain` | app/modules/agent_orchestration/infrastructure/langgraph_engine/mappers/state_mapper.py:104-115 | The result is plain JSON iff the reported messages hold plain tool calls |
| `Projection.FixedIffPlain` | app/modules/agent_orchestration/infrastructure/langgraph_engine/mappers/state_mapper.py:104-115 | The fixed points of the projection are the plain JSON values |
| `Projection.NothingLostIff` | app/modules/agent_orchestration/infrastructure/langgraph_engine/mappers/state_mapper.py:107-108 | The projection of a dictionary keeps every entry iff the texts of its keys are pairwise different |
| `Projection.EveryEntryStands` | app/modules/agent_orchestration/infrastructure/langgraph_engine/mappers/state_mapper.py:107-108 | Then every entry stands in its place under its key's text |
| `Projection.EqualTextsCollapse` | app/modules/agent_orchestration/infrastructure/langgraph_engine/mappers/state_mapper.py:107-108 | An input that loses an entry: an integer key and its text collapse, and the later value stays |
| `Projection.DumpHolds` | app/modules/agent_orchestration/infrastructure/langgraph_engine/mappers/state_mapper.py:92-99 | Each field of a message stands under its own key, and there is no other key |
| `Projection.CountsHold` | app/modules/agent_orchestration/infrastructure/langgraph_engine/mappers/state_mapper.py:82-90 | The usage holds exactly the counts found, each under its own key |
| `Projection.ItemsByIndex` | app/modules/agent_orchestration/infrastructure/langgraph_engine/mappers/state_mapper.py:109-115 | Items are projected one by one in order, a tuple like a list, an unknown object to its text |
| `Projection.ToAgentEvents` | app/modules/agent_orchestration/infrastructure/langgraph_engine/mappers/state_mapper.py:164-188 | One event for each node in chunk order, each reporting its own payload |
| `Projection.MessagesByIndex` | app/modules/agent_orchestration/infrastructure/langgraph_engine/mappers/state_mapper.py:177-178 | The messages of an event are those of the list, one by one and in order |
| `Projection.SplitChannels` | app/modules/agent_orchestration/infrastructure/langgraph_engine/mappers/state_mapper.py:173-180 | Every channel is reported once: a message list as messages, any other as an update; nothing is added |

## Left out

- Model calls, prompts, message trimming, and the wording of model-written text.
- `Routing.LastHumanPlainText`: does not model content given as a list of blocks, because a message's content is text here; the same holds for the summariser's text.
- `EvidenceLoop.CappedOutputs`: does not model payloads that are not text, because their JSON form before truncation is the library's.
- The delegation's reasoning text, and the session and user ids carried along in the state.
- Lower-casing beyond ASCII in the delegator.
- `stream`, which drives the same graph as `invoke`, its logging, and `get_state`.
- Termination of the evidence loops, which only the library's recursion limit ensures, and that limit's error.
- Concurrent calls on one thread.
- Symbolic links, Windows paths, double-slash roots and NUL characters in paths; sandbox roots that are not given by the configured server.
- A server name configured twice: the client factory refuses it, and `ToolArguments` assumes names differ.
- `UnitOfWork.UserRepository.Update`: does not model which error is reported for an update that is both malformed and conflicting, because conflicts surface at the commit in the transaction model.
- Other database clients, lock waiting and time limits.
- Lengths the columns allow but the domain models do not, and what counts as an e-mail address, which is a parameter.
- Password hashing, token issue and refresh, `authenticate`, `get_profile` and `list_users`.
- Rebuilding the orchestrator when settings change.
- How the library reads a flag that is not a boolean, which is a parameter of `Decisions`, and Python's text of values that are not strings, likewise.
- Reading role, content and token counts off a foreign message object in `Projection`, and sub-classes of the plain Python types.
- Exceptions that define their own truth value in the exception walk, and the formatting of provider errors.
