/**
 Who answers: the delegator turns whatever the model says into an agent name, and two
 routers turn the state into an edge label of the supervisor graph.
 */
module Routing {
  import opened Messages
  import Text

  /** The nodes of the supervisor graph, and the end of a run. */
  datatype Target = ToReview | ToResearcher | ToWorkspace | ToChat | ToEnd

  const DELEGATE_EDGES: map<string, Target> :=
    map["human_review" := ToReview, "researcher" := ToResearcher, "chat" := ToChat, "end" := ToEnd]

  const REVIEW_EDGES: map<string, Target> :=
    map["researcher" := ToResearcher, "workspace" := ToWorkspace, "chat" := ToChat, "end" := ToEnd]

  const APPROVED := "approved"

  // ---- task_delegator ---------------------------------------------------------------------------

  function Canonical(raw: string): string {
    Text.ReplaceChar(Text.Lower(Text.Strip(raw)), '-', '_')
  }

  function Legacy(name: string): string {
    if name == "file_writer" then "workspace" else name
  }

  function Allowed(includeWorkspace: bool): set<string> {
    {"researcher", "chat", "end"} + if includeWorkspace then {"workspace"} else {}
  }

  /** The agent for a canonical model answer; "" is never the result. */
  function Sanitised(name: string, localTime: bool, includeWorkspace: bool): string {
    var raw := Legacy(name);
    var chosen := if raw in Allowed(includeWorkspace) then raw else "chat";
    if raw == "workspace" && !includeWorkspace then "chat"
    else if localTime && chosen == "chat" then "researcher"
    else chosen
  }

  function Delegated(answer: string, localTime: bool, includeWorkspace: bool): string {
    Sanitised(Canonical(answer), localTime, includeWorkspace)
  }

  /** The delegator itself: one variable overwritten by a chain of conditions. */
  method TaskDelegator(answer: string, userText: string, includeWorkspace: bool, looksLikeLocalTime: string -> bool)
    returns (nextAgent: string)
    ensures nextAgent == Delegated(answer, looksLikeLocalTime(userText), includeWorkspace)
  {
    var raw := Legacy(Canonical(answer));
    var allowed := {"researcher", "chat", "end"};
    if includeWorkspace {
      allowed := allowed + {"workspace"};
    }
    nextAgent := if raw in allowed then raw else "chat";
    if looksLikeLocalTime(userText) && nextAgent == "chat" {
      nextAgent := "researcher";
    }
    if raw == "workspace" && !includeWorkspace {
      nextAgent := "chat";
    }
  }

  function LastHumanText(ms: seq<Message>): string {
    if ms == [] then ""
    else if ms[|ms| - 1].kind == Human then ms[|ms| - 1].content
    else LastHumanText(ms[..|ms| - 1])
  }

  method LastHumanPlainText(ms: seq<Message>) returns (text: string)
    ensures text == LastHumanText(ms)
  {
    var i := |ms|;
    assert ms[..i] == ms;
    while i > 0
      invariant 0 <= i <= |ms|
      invariant LastHumanText(ms) == LastHumanText(ms[..i])
    {
      i := i - 1;
      assert ms[..i + 1][..i] == ms[..i];
      if ms[i].kind == Human {
        return ms[i].content;
      }
    }
    return "";
  }

  // ---- approval_router --------------------------------------------------------------------------

  function NormalizeAgent(name: string): string {
    if name == "" then "chat" else Legacy(name)
  }

  function RouteToHumanReview(error: string, nextAgent: string): string {
    if error != "" then "end"
    else
      var agent := NormalizeAgent(nextAgent);
      if agent == "workspace" then "human_review" else agent
  }

  function RouteAfterHumanReview(humanFeedback: string, nextAgent: string): string {
    if humanFeedback == APPROVED then NormalizeAgent(nextAgent) else "end"
  }

  /**
   Which answers reach which agent: workspace needs a workspace tool and the word itself (or
   its old name); a question about local time turns every other non-final answer, unless it
   asked for the missing workspace, into a lookup.
   */
  lemma DelegationTable(answer: string, localTime: bool, includeWorkspace: bool)
    ensures var c, agent := Canonical(answer), Delegated(answer, localTime, includeWorkspace);
            var asksWorkspace := c == "workspace" || c == "file_writer";
            && agent in {"researcher", "chat", "workspace", "end"}
            && (agent == "workspace" <==> includeWorkspace && asksWorkspace)
            && (agent == "end" <==> c == "end")
            && (agent == "researcher" <==>
                  c == "researcher" || (localTime && c != "end" && !asksWorkspace))
  {
  }

  /** Every delegation is followed by a declared edge, and only workspace by a review. */
  lemma DelegationRoutes(answer: string, localTime: bool, includeWorkspace: bool, error: string)
    ensures var agent := Delegated(answer, localTime, includeWorkspace);
            var route := RouteToHumanReview(error, agent);
            && route in DELEGATE_EDGES
            && (DELEGATE_EDGES[route] == ToReview <==> error == "" && agent == "workspace")
            && (error == "" && agent != "workspace" ==> route == agent)
  {
    DelegationTable(answer, localTime, includeWorkspace);
  }

  /** After a review of workspace only workspace and the end are possible. */
  lemma ReviewRoutes(humanFeedback: string)
    ensures var route := RouteAfterHumanReview(humanFeedback, "workspace");
            && route in REVIEW_EDGES
            && REVIEW_EDGES[route] == if humanFeedback == APPROVED then ToWorkspace else ToEnd
  {
  }

  /** An agent name that did not come from the delegator has an edge exactly in these cases. */
  lemma DelegateEdgeExists(error: string, nextAgent: string)
    ensures RouteToHumanReview(error, nextAgent) in DELEGATE_EDGES
            <==> error != ""
                 || nextAgent in {"", "human_review", "researcher", "chat", "end", "workspace", "file_writer"}
  {
  }

  // ---- What of an answer counts -----------------------------------------------------------------

  /** Two characters that read the same in an answer: up to letter case, and a dash is an underscore. */
  predicate ReadsAs(a: char, b: char) {
    || a == b
    || ('A' <= a <= 'Z' && b as int == a as int + 32)
    || ('A' <= b <= 'Z' && a as int == b as int + 32)
    || (a in {'-', '_'} && b in {'-', '_'})
  }

  lemma CanonicalByCharacter(a: string, i: nat)
    requires i < |Text.Strip(a)|
    ensures |Canonical(a)| == |Text.Strip(a)|
    ensures var c := Text.Strip(a)[i];
            Canonical(a)[i] == if c == '-' then '_'
                               else if 'A' <= c <= 'Z' then (c as int + 32) as char
                               else c
  {
  }

  /** Outer blanks, letter case and dashes for underscores do not change the agent. */
  lemma SpellingDoesNotCount(a: string, b: string, before: string, after: string, localTime: bool, include_: bool)
    requires |a| == |b| && a != "" && Text.Bare(a, Text.IsSpace) && Text.Bare(b, Text.IsSpace)
    requires forall i :: 0 <= i < |a| ==> ReadsAs(a[i], b[i])
    requires (forall i :: 0 <= i < |before| ==> Text.IsSpace(before[i]))
             && forall i :: 0 <= i < |after| ==> Text.IsSpace(after[i])
    ensures Delegated(before + a + after, localTime, include_) == Delegated(b, localTime, include_)
  {
    Text.StripAround(before, a, after, Text.IsSpace);
    Text.StripByBare(b, Text.IsSpace);
    SameCanonical(before + a + after, b);
  }

  lemma SameCanonical(a: string, b: string)
    requires |Text.Strip(a)| == |Text.Strip(b)|
    requires forall i :: 0 <= i < |Text.Strip(a)| ==> ReadsAs(Text.Strip(a)[i], Text.Strip(b)[i])
    ensures Canonical(a) == Canonical(b)
  {
    var x, y := Canonical(a), Canonical(b);
    forall i | 0 <= i < |x|
      ensures x[i] == y[i]
    {
      CanonicalByCharacter(a, i);
      CanonicalByCharacter(b, i);
    }
  }

  /** The names themselves: each agent is chosen by its own, and workspace by its old one too. */
  lemma NamesChoose(localTime: bool, include_: bool)
    ensures Delegated("researcher", localTime, include_) == "researcher"
    ensures Delegated("end", localTime, include_) == "end"
    ensures Delegated("chat", localTime, include_) == if localTime then "researcher" else "chat"
    ensures include_ ==> Delegated("workspace", localTime, include_) == Delegated("file_writer", localTime, include_)
                         == "workspace"
    ensures !include_ ==> Delegated("workspace", localTime, include_) == Delegated("file_writer", localTime, include_)
                          == "chat"
  {
    Chooses("researcher", localTime, include_);
    Chooses("end", localTime, include_);
    Chooses("chat", localTime, include_);
    Chooses("workspace", localTime, include_);
    Chooses("file_writer", localTime, include_);
  }

  lemma Chooses(n: string, localTime: bool, include_: bool)
    requires n in {"researcher", "end", "chat", "workspace", "file_writer"}
    ensures Delegated(n, localTime, include_)
            == if n == "workspace" || n == "file_writer" then (if include_ then "workspace" else "chat")
               else if n == "chat" && localTime then "researcher"
               else n
  {
    assert Canonical(n) == n by {
      PlainName(n);
    }
    DelegationTable(n, localTime, include_);
  }

  lemma PlainName(n: string)
    requires n != "" && forall i :: 0 <= i < |n| ==> 'a' <= n[i] <= 'z' || n[i] == '_'
    ensures Canonical(n) == n
  {
    Text.StripByBare(n, Text.IsSpace);
    forall i | 0 <= i < |n|
      ensures Canonical(n)[i] == n[i]
    {
      CanonicalByCharacter(n, i);
    }
  }
}
