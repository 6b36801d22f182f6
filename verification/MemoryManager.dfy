/**
 History compaction: the policy that triggers it, the node that replaces the oldest turns
 by one summary, and the reader that must not show that summary to the user.
 */
module MemoryManager {
  import opened Messages
  import Text

  datatype Policy = Policy(trigger: int, keep: int, maxChars: int)

  const SUMMARY_PREFIX := "Conversation summary:"

  function Max(a: int, b: int): int {
    if a >= b then a else b
  }

  predicate ShouldSummarize(total: nat, p: Policy) {
    p.trigger > 0 && p.keep >= 1 && total > Max(p.trigger, p.keep + 1)
  }

  /** The totals for which the rule differs from "at least the trigger". */
  lemma TriggerDiffersIff(total: nat, p: Policy)
    ensures ShouldSummarize(total, p) != (total >= p.trigger)
            <==> total >= p.trigger
                 && (p.trigger <= 0 || p.keep < 1 || total <= Max(p.trigger, p.keep + 1))
  {
  }

  /** How many of the oldest messages are summarised. */
  function CutIndex(total: nat, keep: int): (cut: nat)
    ensures cut <= total
  {
    if keep < 1 then 0 else Max(0, total - keep)
  }

  function RoleName(k: Kind): string {
    match k
    case Human => "human"
    case Ai => "ai"
    case Tool => "tool"
    case System => "system"
  }

  function MessageText(m: Message): string {
    var text := Text.Strip(m.content);
    RoleName(m.kind) + ": " + if text != "" then text else "(empty)"
  }

  function Lines(ms: seq<Message>): seq<string> {
    if ms == [] then [] else [MessageText(ms[0])] + Lines(ms[1..])
  }

  function SummaryPayload(ms: seq<Message>, maxChars: int): string {
    var joined := Text.Strip(Text.Join("\n", Lines(ms)));
    if maxChars > 0 && |joined| > maxChars then joined[..maxChars] else joined
  }

  function RemovableIds(ms: seq<Message>): seq<Id> {
    if ms == [] then []
    else (if ms[0].id != "" then [ms[0].id] else []) + RemovableIds(ms[1..])
  }

  lemma {:induction false} RemovableIdsConcat(a: seq<Message>, b: seq<Message>)
    ensures RemovableIds(a + b) == RemovableIds(a) + RemovableIds(b)
  {
    if a == [] {
      assert a + b == b;
    } else {
      assert (a + b)[1..] == a[1..] + b;
      RemovableIdsConcat(a[1..], b);
    }
  }

  method CollectRemovableIds(prefix: seq<Message>) returns (ids: seq<Id>)
    ensures ids == RemovableIds(prefix)
  {
    ids := [];
    for i := 0 to |prefix|
      invariant ids == RemovableIds(prefix[..i])
    {
      assert prefix[..i + 1] == prefix[..i] + [prefix[i]];
      RemovableIdsConcat(prefix[..i], [prefix[i]]);
      if prefix[i].id != "" {
        ids := ids + [prefix[i].id];
      }
    }
    assert prefix[..|prefix|] == prefix;
  }

  function Summary(id: Id, answer: string): Message {
    Message(id, Ai, SUMMARY_PREFIX + "\n" + answer, [])
  }

  /** The updates the node returns when the model answers `answer` to the summary request. */
  function ManagerUpdates(ms: seq<Message>, p: Policy, id: Id, answer: string): seq<Update> {
    var cut := CutIndex(|ms|, p.keep);
    if cut <= 0 then []
    else
      var removable := RemovableIds(ms[..cut]);
      if removable == [] then []
      else if SummaryPayload(ms[..cut], p.maxChars) == "" then Removes(removable)
      else Removes(removable) + [Put(Summary(id, answer))]
  }

  /** The channel after the node ran. */
  function Compact(ms: seq<Message>, p: Policy, id: Id, answer: string): Merged {
    AddMessages(ms, ManagerUpdates(ms, p, id, answer))
  }

  lemma {:induction false} JoinHolds(sep: string, parts: seq<string>, i: nat, k: nat) returns (at: nat)
    requires i < |parts| && k < |parts[i]|
    ensures at < |Text.Join(sep, parts)| && Text.Join(sep, parts)[at] == parts[i][k]
    decreases |parts|
  {
    if |parts| == 1 || i == 0 {
      at := k;
    } else {
      var rest := JoinHolds(sep, parts[1..], i - 1, k);
      var head, tail := parts[0] + sep, Text.Join(sep, parts[1..]);
      at := |head| + rest;
      assert Text.Join(sep, parts) == head + tail;
    }
  }

  /** The branch that removes without summarising cannot be reached. */
  lemma PayloadNeverEmpty(ms: seq<Message>, maxChars: int)
    requires ms != []
    ensures SummaryPayload(ms, maxChars) != ""
  {
    var text := MessageText(ms[0]);
    assert text[0] == RoleName(ms[0].kind)[0] && !Text.IsSpace(text[0]);
    var at := JoinHolds("\n", Lines(ms), 0, 0);
    Text.StripKeeps(Text.Join("\n", Lines(ms)), Text.IsSpace, at);
  }

  lemma {:induction false} RemovableIdsExact(ms: seq<Message>)
    requires "" !in Ids(ms)
    ensures |RemovableIds(ms)| == |ms|
    ensures forall i :: 0 <= i < |ms| ==> RemovableIds(ms)[i] == ms[i].id
  {
    if ms != [] {
      assert ms[0] in ms;
      assert Ids(ms[1..]) <= Ids(ms);
      RemovableIdsExact(ms[1..]);
    }
  }

  function IdList(ms: seq<Message>): (ids: seq<Id>)
    ensures |ids| == |ms|
    ensures forall i :: 0 <= i < |ms| ==> ids[i] == ms[i].id
  {
    seq(|ms|, i requires 0 <= i < |ms| => ms[i].id)
  }

  lemma IdListIds(ms: seq<Message>)
    ensures (set id | id in IdList(ms)) == Ids(ms)
  {
    forall m | m in ms
      ensures m.id in IdList(ms)
    {
      var k :| 0 <= k < |ms| && ms[k] == m;
      assert IdList(ms)[k] == m.id;
    }
  }

  /** Only ids that are not blank can be removed, in the order of their messages. */
  lemma RemovableIdsAre(a: seq<Message>, m: Message)
    ensures RemovableIds([]) == []
    ensures RemovableIds(a + [m]) == if m.id == "" then RemovableIds(a) else RemovableIds(a) + [m.id]
  {
    RemovableIdsConcat(a, [m]);
    assert [m][1..] == [];
  }

  lemma {:induction false} AllBlankIff(ms: seq<Message>)
    ensures RemovableIds(ms) == [] <==> forall i :: 0 <= i < |ms| ==> ms[i].id == ""
  {
    if ms != [] {
      AllBlankIff(ms[1..]);
      assert forall i :: 1 <= i < |ms| ==> ms[i] == ms[1..][i - 1];
    }
  }

  /**
   What the node returns, with or without ids: nothing if there is no prefix, or none of its
   messages has an id; otherwise a removal for each id of the prefix, and the summary.
   */
  lemma UpdatesInGeneral(ms: seq<Message>, p: Policy, id: Id, answer: string)
    ensures var cut := if 1 <= p.keep < |ms| then |ms| - p.keep else 0;
            ManagerUpdates(ms, p, id, answer)
            == if forall i :: 0 <= i < cut ==> ms[i].id == "" then []
               else Removes(RemovableIds(ms[..cut])) + [Put(Summary(id, answer))]
  {
    var cut := if 1 <= p.keep < |ms| then |ms| - p.keep else 0;
    AllBlankIff(ms[..cut]);
    assert forall i :: 0 <= i < cut ==> ms[..cut][i] == ms[i];
    if cut > 0 {
      PayloadNeverEmpty(ms[..cut], p.maxChars);
    }
  }

  /** The removed ids are exactly those of the oldest messages, and one summary is written. */
  lemma CompactionUpdates(ms: seq<Message>, p: Policy, id: Id, answer: string)
    requires "" !in Ids(ms)
    requires 1 <= p.keep < |ms|
    ensures ManagerUpdates(ms, p, id, answer)
            == Removes(IdList(ms[..|ms| - p.keep])) + [Put(Summary(id, answer))]
  {
    var prefix := ms[..|ms| - p.keep];
    assert Ids(prefix) <= Ids(ms);
    RemovableIdsExact(prefix);
    PayloadNeverEmpty(prefix, p.maxChars);
    assert RemovableIds(prefix) == IdList(prefix);
  }

  // ---- What the summariser is given -----------------------------------------------------------------

  /** One message reads as its role and its text without outer blanks, or a word for an empty one. */
  lemma LineReads(m: Message)
    ensures var text := if Text.Strip(m.content) != "" then Text.Strip(m.content) else "(empty)";
            MessageText(m) == match m.kind
                              case Human => "human: " + text
                              case Ai => "ai: " + text
                              case Tool => "tool: " + text
                              case System => "system: " + text
  {
    assert "human" + ": " == "human: " && "ai" + ": " == "ai: ";
    assert "tool" + ": " == "tool: " && "system" + ": " == "system: ";
  }

  lemma LineIsBare(m: Message)
    ensures MessageText(m) != "" && Text.Bare(MessageText(m), Text.IsSpace)
  {
    var line, text := MessageText(m), Text.Strip(m.content);
    Text.StripByBare(m.content, Text.IsSpace);
    assert line[0] == RoleName(m.kind)[0];
    assert text != "" ==> line[|line| - 1] == text[|text| - 1];
    assert text == "" ==> line[|line| - 1] == ')';
  }

  lemma {:induction false} TranscriptIsBare(ms: seq<Message>)
    requires ms != []
    ensures var s := Text.Join("\n", Lines(ms)); s != "" && Text.Bare(s, Text.IsSpace)
  {
    LineIsBare(ms[0]);
    if |ms| > 1 {
      TranscriptIsBare(ms[1..]);
      var head, tail := MessageText(ms[0]) + "\n", Text.Join("\n", Lines(ms[1..]));
      JoinCons(ms);
      var s := head + tail;
      assert s[0] == MessageText(ms[0])[0] && s[|s| - 1] == tail[|tail| - 1];
    }
  }

  lemma JoinCons(ms: seq<Message>)
    requires |ms| > 1
    ensures Text.Join("\n", Lines(ms)) == MessageText(ms[0]) + "\n" + Text.Join("\n", Lines(ms[1..]))
  {
    assert Lines(ms)[1..] == Lines(ms[1..]) && Lines(ms)[0] == MessageText(ms[0]);
    assert |Lines(ms[1..])| > 0;
  }

  /**
   The payload: without a limit one line for each message, in order, joined by line breaks; with
   one, that text's beginning of at most so many characters.
   */
  lemma PayloadReads(ms: seq<Message>, limit: int)
    requires ms != []
    ensures SummaryPayload([ms[0]], 0) == MessageText(ms[0])
    ensures |ms| > 1 ==> SummaryPayload(ms, 0) == MessageText(ms[0]) + "\n" + SummaryPayload(ms[1..], 0)
    ensures var full := SummaryPayload(ms, 0);
            SummaryPayload(ms, limit) == if 0 < limit < |full| then full[..limit] else full
  {
    TranscriptIsBare(ms);
    Text.StripByBare(Text.Join("\n", Lines(ms)), Text.IsSpace);
    var one := [ms[0]];
    TranscriptIsBare(one);
    Text.StripByBare(Text.Join("\n", Lines(one)), Text.IsSpace);
    assert one[1..] == [] && Lines(one) == [MessageText(ms[0])];
    if |ms| > 1 {
      JoinCons(ms);
      TranscriptIsBare(ms[1..]);
      Text.StripByBare(Text.Join("\n", Lines(ms[1..])), Text.IsSpace);
    }
  }

  /** The summary reads as its heading, a line break and the model's answer. */
  lemma SummaryReads(id: Id, answer: string)
    ensures Summary(id, answer) == Message(id, Ai, "Conversation summary:" + "\n" + answer, [])
  {
  }

  /**
   The character limit cuts what the summariser is given and not what it writes: the updates are
   the same for every limit, and the summary is as long as the answer makes it.
   */
  lemma LimitIsOnThePayload(ms: seq<Message>, p: Policy, limit: int, id: Id, answer: string)
    ensures ManagerUpdates(ms, p, id, answer) == ManagerUpdates(ms, p.(maxChars := limit), id, answer)
    ensures limit > 0 ==> |SummaryPayload(ms, limit)| <= limit
    ensures |Summary(id, answer).content| == |SUMMARY_PREFIX| + 1 + |answer|
  {
    var cut := CutIndex(|ms|, p.keep);
    if cut > 0 {
      PayloadNeverEmpty(ms[..cut], p.maxChars);
      PayloadNeverEmpty(ms[..cut], limit);
    }
  }

  lemma SuffixIsFresh(prefix: seq<Message>, suffix: seq<Message>, m: Message)
    requires Distinct(prefix + suffix) && m.id !in Ids(prefix + suffix)
    ensures Ids(prefix) !! Ids(suffix + [m])
    ensures Distinct(suffix + [m])
  {
    IdsConcat(prefix, suffix);
    IdsConcat(suffix, [m]);
    assert Ids([m]) == {m.id};
    DistinctPart(prefix, suffix);
    DistinctConcat(suffix, [m]);
  }

  lemma WithoutPrefix(prefix: seq<Message>, suffix: seq<Message>)
    requires Ids(prefix) !! Ids(suffix)
    ensures Without(prefix + suffix, Ids(prefix)) == suffix
  {
    WithoutConcat(prefix, suffix, Ids(prefix));
    WithoutAll(prefix, Ids(prefix));
    WithoutNone(suffix, Ids(prefix));
  }

  lemma RemovePrefixAndAppend(prefix: seq<Message>, suffix: seq<Message>, m: Message)
    requires Distinct(prefix + suffix) && m.id !in Ids(prefix + suffix)
    ensures AddMessages(prefix + suffix, Removes(IdList(prefix)) + [Put(m)]) == Merged(suffix + [m])
    ensures Distinct(suffix + [m])
  {
    var all := prefix + suffix;
    SuffixIsFresh(prefix, suffix, m);
    calc {
      AddMessages(all, Removes(IdList(prefix)) + [Put(m)]);
    ==  { RemovePrefix(prefix, suffix, [Put(m)]); }
      Fold(all, Ids(prefix), [Put(m)]);
    ==  { assert [Put(m)] == Puts([m]); assert Ids([m]) == {m.id}; FoldFresh(all, Ids(prefix), [m]); }
      Merged(Without(all + [m], Ids(prefix)));
    ==  { assert all + [m] == prefix + (suffix + [m]); WithoutPrefix(prefix, suffix + [m]); }
      Merged(suffix + [m]);
    }
  }

  lemma RemovePrefix(prefix: seq<Message>, suffix: seq<Message>, rest: seq<Update>)
    ensures Fold(prefix + suffix, {}, Removes(IdList(prefix)) + rest)
            == Fold(prefix + suffix, Ids(prefix), rest)
  {
    IdsConcat(prefix, suffix);
    IdListIds(prefix);
    FoldRemoves(prefix + suffix, {}, IdList(prefix), rest);
    assert {} + Ids(prefix) == Ids(prefix);
  }

  /**
   One compaction conserves the conversation: exactly the oldest messages go, the last
   `keep` stay unchanged and in order, one summary follows them, and the trigger is quiet.
   */
  lemma CompactionConserves(ms: seq<Message>, p: Policy, id: Id, answer: string)
    requires Distinct(ms) && "" !in Ids(ms) && id !in Ids(ms)
    requires 1 <= p.keep < |ms|
    ensures Compact(ms, p, id, answer) == Merged(ms[|ms| - p.keep..] + [Summary(id, answer)])
    ensures Distinct(ms[|ms| - p.keep..] + [Summary(id, answer)])
    ensures |ms[|ms| - p.keep..] + [Summary(id, answer)]| == p.keep + 1
    ensures !ShouldSummarize(p.keep + 1, p)
  {
    var cut := |ms| - p.keep;
    assert ms == ms[..cut] + ms[cut..];
    CompactionUpdates(ms, p, id, answer);
    RemovePrefixAndAppend(ms[..cut], ms[cut..], Summary(id, answer));
  }

  // ---- The reader -------------------------------------------------------------------------

  /** `is_internal_memory_summary_message`. */
  predicate IsInternalSummary(m: Message) {
    m.kind == Ai && SUMMARY_PREFIX <= Text.StripLeft(m.content, Text.IsSpace)
  }

  /** Blanks, then the words a summary begins with. */
  ghost predicate BeginsAsSummary(text: string) {
    exists k :: 0 <= k <= |text| && BlankBefore(text, k) && "Conversation summary:" <= text[k..]
  }

  ghost predicate BlankBefore(text: string, k: nat)
    requires k <= |text|
  {
    forall i :: 0 <= i < k ==> Text.IsSpace(text[i])
  }

  /** Internal are exactly the AI messages whose text begins so. */
  lemma InternalIff(m: Message)
    ensures IsInternalSummary(m) <==> m.kind == Ai && BeginsAsSummary(m.content)
  {
    var text := m.content;
    var rest := Text.StripLeft(text, Text.IsSpace);
    Text.StripLeftSuffix(text, Text.IsSpace);
    assert BlankBefore(text, |text| - |rest|) && text[|text| - |rest|..] == rest;
    forall k | 0 <= k <= |text| && BlankBefore(text, k) && "Conversation summary:" <= text[k..]
      ensures rest == text[k..]
    {
      assert text[k..][0] == 'C' && !Text.IsSpace('C');
      assert text == text[..k] + text[k..];
      StripsBlanks(text[..k], text[k..]);
    }
  }

  lemma {:induction false} StripsBlanks(blanks: string, text: string)
    requires text != "" && !Text.IsSpace(text[0])
    requires forall i :: 0 <= i < |blanks| ==> Text.IsSpace(blanks[i])
    ensures Text.StripLeft(blanks + text, Text.IsSpace) == text
  {
    Text.StripLeftPast(blanks, text, Text.IsSpace);
  }

  /** A reply that does not begin as a summary is what the user is shown, whatever came before. */
  lemma FreshReplyIsShown(ms: seq<Message>, r: Message)
    requires r.kind == Ai && !BeginsAsSummary(r.content)
    ensures LastAiReply(ms + [r]) == r.content
  {
    InternalIff(r);
    var all := ms + [r];
    assert all[|all| - 1] == r && Visible(r);
  }

  /** Nothing else than such a reply is: other messages and summaries behind it are passed over. */
  lemma OthersArePassedOver(ms: seq<Message>, r: Message, rest: seq<Message>)
    requires r.kind == Ai && !BeginsAsSummary(r.content)
    requires forall i :: 0 <= i < |rest| ==> rest[i].kind != Ai || BeginsAsSummary(rest[i].content)
    ensures LastAiReply(ms + [r] + rest) == r.content
  {
    FreshReplyIsShown(ms, r);
    forall i | 0 <= i < |rest|
      ensures !Visible(rest[i])
    {
      InternalIff(rest[i]);
    }
    InternalIff(r);
    NoneIn(rest, Visible);
    LastIndexConcat(ms + [r], rest, Visible);
    assert LastIndex(ms + [r], Visible) == |ms|;
    assert (ms + [r] + rest)[|ms|] == r;
  }

  lemma {:induction false} NoneIn(ms: seq<Message>, p: Message -> bool)
    requires forall i :: 0 <= i < |ms| ==> !p(ms[i])
    ensures LastIndex(ms, p) == -1
  {
    if ms != [] {
      NoneIn(ms[..|ms| - 1], p);
    }
  }

  predicate Visible(m: Message) {
    m.kind == Ai && !IsInternalSummary(m)
  }

  /** The index of the last message that satisfies `p`, or -1. */
  function LastIndex(ms: seq<Message>, p: Message -> bool): (i: int)
    ensures -1 <= i < |ms|
    ensures i >= 0 ==> p(ms[i])
  {
    if ms == [] then -1
    else if p(ms[|ms| - 1]) then |ms| - 1
    else LastIndex(ms[..|ms| - 1], p)
  }

  lemma {:induction false} NoneAfterLastIndex(ms: seq<Message>, p: Message -> bool)
    ensures forall k :: LastIndex(ms, p) < k < |ms| ==> !p(ms[k])
  {
    if ms != [] && !p(ms[|ms| - 1]) {
      NoneAfterLastIndex(ms[..|ms| - 1], p);
    }
  }

  /** The last match in a suffix with a non-match behind it, if the suffix holds one. */
  lemma {:induction false} LastIndexInSuffix(all: seq<Message>, cut: nat, hidden: Message, p: Message -> bool)
    requires cut <= |all| && !p(hidden)
    ensures LastIndex(all[cut..] + [hidden], p)
            == if cut <= LastIndex(all, p) then LastIndex(all, p) - cut else -1
  {
    var short := all[cut..] + [hidden];
    assert short[..|short| - 1] == all[cut..];
    if cut < |all| {
      var most := all[..|all| - 1];
      assert all[cut..][..|all| - cut - 1] == most[cut..];
      LastIndexInSuffix(most, cut, hidden, p);
      assert (most[cut..] + [hidden])[..|most| - cut] == most[cut..];
    }
  }

  lemma {:induction false} LastIndexConcat(a: seq<Message>, b: seq<Message>, p: Message -> bool)
    ensures LastIndex(a + b, p) == if LastIndex(b, p) >= 0 then |a| + LastIndex(b, p) else LastIndex(a, p)
  {
    if b == [] {
      assert a + b == a;
    } else {
      assert (a + b)[..|a + b| - 1] == a + b[..|b| - 1];
      LastIndexConcat(a, b[..|b| - 1], p);
    }
  }

  function LastVisible(ms: seq<Message>): (i: int)
    ensures -1 <= i < |ms|
    ensures i >= 0 ==> Visible(ms[i])
  {
    LastIndex(ms, Visible)
  }

  /** The content at an index, with the last message as fallback. */
  function ContentAt(ms: seq<Message>, i: int): string
    requires -1 <= i < |ms|
  {
    if i >= 0 then ms[i].content else if ms != [] then ms[|ms| - 1].content else ""
  }

  /** `last_ai_reply`: a search from the end, with the last message as fallback. */
  function LastAiReply(ms: seq<Message>): string {
    ContentAt(ms, LastVisible(ms))
  }

  lemma SummaryIsInternal(id: Id, answer: string)
    ensures IsInternalSummary(Summary(id, answer))
  {
    var content := Summary(id, answer).content;
    assert content[0] == 'C' && !Text.IsSpace('C');
    assert Text.StripLeft(content, Text.IsSpace) == content;
  }

  /**
   Appending a summary leaves what the user is shown unchanged exactly when a reply was visible;
   otherwise the summary itself is shown, which changes nothing only if the same text was shown.
   */
  lemma SummaryIsSkipped(ms: seq<Message>, id: Id, answer: string)
    ensures LastAiReply(ms + [Summary(id, answer)])
            == if LastVisible(ms) >= 0 then LastAiReply(ms) else Summary(id, answer).content
    ensures LastAiReply(ms + [Summary(id, answer)]) == LastAiReply(ms)
            <==> LastVisible(ms) >= 0 || (ms != [] && ms[|ms| - 1].content == Summary(id, answer).content)
  {
    SummaryIsInternal(id, answer);
    assert ms[0..] == ms;
    assert Summary(id, answer).content != "";
    var longer := ms + [Summary(id, answer)];
    ContentOfSuffix(ms, 0, Summary(id, answer), Visible, longer, LastVisible(ms), LastVisible(longer));
  }

  lemma VisibleReadsOtherwise(shown: Message, hidden: Message)
    requires Visible(shown) && IsInternalSummary(hidden)
    ensures shown.content != hidden.content && !Visible(hidden)
  {
  }

  lemma ContentIn(all: seq<Message>, cut: nat, hidden: Message, short: seq<Message>, w: int)
    requires cut <= |all| && short == all[cut..] + [hidden] && -1 <= w < |all| - cut
    ensures ContentAt(short, w) == if w >= 0 then all[cut + w].content else hidden.content
  {
  }

  /** What is read from a suffix with a non-match behind it. */
  lemma ContentOfSuffix(all: seq<Message>, cut: nat, hidden: Message, p: Message -> bool,
                        short: seq<Message>, v: int, w: int)
    requires cut <= |all| && !p(hidden) && short == all[cut..] + [hidden]
    requires v == LastIndex(all, p) && w == LastIndex(short, p)
    ensures ContentAt(short, w) == if cut <= v then all[v].content else hidden.content
  {
    assert w == if cut <= v then v - cut else -1 by {
      LastIndexInSuffix(all, cut, hidden, p);
    }
    ContentIn(all, cut, hidden, short, w);
  }

  lemma LastVisibleOfSuffix(all: seq<Message>, cut: nat, hidden: Message)
    requires cut <= |all| && IsInternalSummary(hidden) && LastVisible(all) >= 0
    ensures LastAiReply(all[cut..] + [hidden]) == LastAiReply(all) <==> cut <= LastVisible(all)
  {
    VisibleReadsOtherwise(all[LastVisible(all)], hidden);
    var short := all[cut..] + [hidden];
    ContentOfSuffix(all, cut, hidden, Visible, short, LastVisible(all), LastVisible(short));
  }

  /**
   The visible reply survives a compaction exactly when it is among the kept messages:
   otherwise the user would be shown the internal summary.
   */
  lemma ReplySurvives(ms: seq<Message>, p: Policy, id: Id, answer: string)
    requires Distinct(ms) && "" !in Ids(ms) && id !in Ids(ms)
    requires 1 <= p.keep < |ms|
    requires LastVisible(ms) >= 0
    ensures Compact(ms, p, id, answer).Merged?
    ensures LastAiReply(Compact(ms, p, id, answer).messages) == LastAiReply(ms)
            <==> |ms| - p.keep <= LastVisible(ms)
  {
    var cut, note := |ms| - p.keep, Summary(id, answer);
    assert IsInternalSummary(note) by {
      SummaryIsInternal(id, answer);
    }
    LastVisibleOfSuffix(ms, cut, note);
    assert Compact(ms, p, id, answer) == Merged(ms[cut..] + [note]) by {
      CompactionConserves(ms, p, id, answer);
    }
  }

  /** A reply just given is the last message, so with `keep >= 1` it survives. */
  lemma FreshReplySurvives(ms: seq<Message>, p: Policy, id: Id, answer: string)
    requires Distinct(ms) && "" !in Ids(ms) && id !in Ids(ms)
    requires 1 <= p.keep < |ms|
    requires Visible(ms[|ms| - 1])
    ensures Compact(ms, p, id, answer).Merged?
    ensures LastAiReply(Compact(ms, p, id, answer).messages) == ms[|ms| - 1].content
  {
    ReplySurvives(ms, p, id, answer);
  }
}
