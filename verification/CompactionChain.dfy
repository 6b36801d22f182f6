/**
 The supervisor graph fed its own output: each run starts on the messages the previous run left
 and one new human turn, and ends through a reply node or without one. The master graph does not
 do this; it starts every run on the stored thread, for which see `ThreadSummaries`.
 */
module CompactionChain {
  import opened Messages
  import opened MemoryManager

  /**
   One supervisor run: the human turn, what the visited nodes appended, whether the run
   ended through chat, researcher or workspace, and what the memory manager would write.
   */
  datatype Turn = Turn(human: Message, replies: seq<Message>, throughReply: bool, summaryId: Id, answer: string)
  {
    function Added(): seq<Message> { [human] + replies }
    function Note(): Message { Summary(summaryId, answer) }
  }

  datatype Chain = Start | Then(earlier: Chain, turn: Turn)

  predicate Enabled(p: Policy) {
    p.trigger > 0 && p.keep >= 1
  }

  /** The router after a reply node: the length of the channel decides. */
  predicate Compacts(p: Policy, before: seq<Message>, t: Turn) {
    t.throughReply && ShouldSummarize(|before|, p)
  }

  function AfterTurn(p: Policy, before: seq<Message>, t: Turn): seq<Message> {
    if Compacts(p, before, t) then
      match Compact(before, p, t.summaryId, t.answer)
      case Merged(r) => r
      case UnknownId(_) => before
    else before
  }

  /** The messages the last run leaves. */
  function History(p: Policy, c: Chain): seq<Message> {
    match c
    case Start => []
    case Then(e, t) => AfterTurn(p, Merge(History(p, e), t.Added()), t)
  }

  /** Ids of the summaries the manager wrote so far. */
  function Written(p: Policy, c: Chain): set<Id> {
    match c
    case Start => {}
    case Then(e, t) =>
      Written(p, e) + if Compacts(p, Merge(History(p, e), t.Added()), t) then {t.summaryId} else {}
  }

  function Used(c: Chain): set<Id> {
    match c
    case Start => {}
    case Then(e, t) => Used(e) + Ids(t.Added()) + {t.summaryId}
  }

  /** Every message gets an id of its own, and a reply node replies at least once. */
  ghost predicate ValidChain(c: Chain) {
    match c
    case Start => true
    case Then(e, t) => ValidChain(e) && ValidTurn(Used(e), t)
  }

  ghost predicate ValidTurn(used: set<Id>, t: Turn) {
    && Distinct(t.Added())
    && Ids(t.Added()) !! used
    && t.summaryId !in used + Ids(t.Added())
    && "" !in Ids(t.Added()) + {t.summaryId}
    && (t.throughReply ==> t.replies != [])
  }

  /** A channel whose ids are in use, different and not blank. */
  ghost predicate Sound(ms: seq<Message>, used: set<Id>) {
    Distinct(ms) && "" !in Ids(ms) && Ids(ms) <= used
  }

  lemma AppendsTurn(h: seq<Message>, used: set<Id>, t: Turn)
    requires Sound(h, used) && ValidTurn(used, t)
    ensures Merge(h, t.Added()) == h + t.Added()
    ensures Sound(h + t.Added(), used + Ids(t.Added()))
  {
    MergeAppends(h, [], t.Added());
    assert [] + t.Added() == t.Added();
    IdsConcat(h, t.Added());
    DistinctConcat(h, t.Added());
  }

  lemma CompactsTurn(p: Policy, before: seq<Message>, used: set<Id>, t: Turn)
    requires Sound(before, used) && t.summaryId !in used + {""}
    requires Compacts(p, before, t)
    ensures 1 <= p.keep < |before|
    ensures AfterTurn(p, before, t) == before[|before| - p.keep..] + [t.Note()]
    ensures Sound(AfterTurn(p, before, t), used + {t.summaryId})
  {
    CompactionConserves(before, p, t.summaryId, t.answer);
    var kept := before[|before| - p.keep..];
    assert Ids(kept) <= Ids(before);
    IdsConcat(kept, [t.Note()]);
    assert Ids([t.Note()]) == {t.summaryId};
  }

  lemma {:induction false} ChainSound(p: Policy, c: Chain)
    requires ValidChain(c)
    ensures Sound(History(p, c), Used(c))
    ensures Written(p, c) <= Used(c)
  {
    match c
    case Start =>
    case Then(e, t) =>
      ChainSound(p, e);
      var h := History(p, e);
      AppendsTurn(h, Used(e), t);
      if Compacts(p, h + t.Added(), t) {
        CompactsTurn(p, h + t.Added(), Used(e) + Ids(t.Added()), t);
      }
  }

  lemma RunMerges(p: Policy, e: Chain, t: Turn)
    requires ValidChain(Then(e, t))
    ensures Merge(History(p, e), t.Added()) == History(p, e) + t.Added()
    ensures Sound(History(p, e) + t.Added(), Used(e) + Ids(t.Added()))
    ensures Ids(t.Added()) + {t.summaryId} !! Written(p, e)
  {
    ChainSound(p, e);
    AppendsTurn(History(p, e), Used(e), t);
  }

  /** What one more run does: it appends, and when it compacts it keeps the last `keep`. */
  lemma OneRun(p: Policy, e: Chain, t: Turn)
    requires ValidChain(Then(e, t))
    ensures Merge(History(p, e), t.Added()) == History(p, e) + t.Added()
    ensures Ids(t.Added()) + {t.summaryId} !! Written(p, e)
    ensures var before := History(p, e) + t.Added();
            if Compacts(p, before, t) then
              && 1 <= p.keep < |before|
              && History(p, Then(e, t)) == before[|before| - p.keep..] + [t.Note()]
            else History(p, Then(e, t)) == before
  {
    RunMerges(p, e, t);
    var before := History(p, e) + t.Added();
    if Compacts(p, before, t) {
      CompactsTurn(p, before, Used(e) + Ids(t.Added()), t);
    }
  }

  /** Every run that ends through a reply node leaves a bounded history. */
  lemma HistoryBounded(p: Policy, c: Chain)
    requires Enabled(p) && ValidChain(c)
    requires c.Then? && c.turn.throughReply
    ensures |History(p, c)| <= Max(p.trigger, p.keep + 1)
  {
    OneRun(p, c.earlier, c.turn);
  }

  function TotalAdded(c: Chain): nat {
    match c
    case Start => 0
    case Then(e, t) => TotalAdded(e) + |t.Added()|
  }

  /** With the policy disabled nothing is ever removed, so no such bound holds. */
  lemma {:induction false} DisabledKeepsEverything(p: Policy, c: Chain)
    requires !Enabled(p) && ValidChain(c)
    ensures |History(p, c)| == TotalAdded(c)
  {
    match c
    case Start =>
    case Then(e, t) =>
      OneRun(p, e, t);
      DisabledKeepsEverything(p, e);
  }

  ghost predicate HoldsSummaryAt(p: Policy, c: Chain, i: int) {
    0 <= i < |History(p, c)| && History(p, c)[i].id in Written(p, c)
  }

  /** A message whose id is not among the appended ones stands in the earlier history. */
  lemma StandsInFront(h: seq<Message>, added: seq<Message>, k: int)
    requires 0 <= k < |h + added| && (h + added)[k].id !in Ids(added)
    ensures k < |h| && (h + added)[k] == h[k]
  {
    assert forall j :: |h| <= j < |h + added| ==> (h + added)[j] in added;
  }

  /** Where a summary that the run did not write itself was before the run. */
  lemma OlderSummary(p: Policy, e: Chain, t: Turn, i: int) returns (was: int)
    requires ValidChain(Then(e, t)) && HoldsSummaryAt(p, Then(e, t), i)
    requires Compacts(p, History(p, e) + t.Added(), t) ==> i != p.keep
    ensures HoldsSummaryAt(p, e, was)
    ensures was == if Compacts(p, History(p, e) + t.Added(), t)
                   then i + (|History(p, e)| + |t.Added()| - p.keep) else i
  {
    OneRun(p, e, t);
    var before := History(p, e) + t.Added();
    was := if Compacts(p, before, t) then i + (|before| - p.keep) else i;
    assert History(p, Then(e, t))[i] == before[was];
    WrittenByRun(p, e, t, before[was]);
    StandsInFront(History(p, e), t.Added(), was);
  }

  lemma WrittenByRun(p: Policy, e: Chain, t: Turn, m: Message)
    requires ValidChain(Then(e, t))
    requires m in History(p, e) + t.Added()
    requires m.id in Written(p, Then(e, t))
    ensures m.id in Written(p, e) && m.id !in Ids(t.Added())
  {
    ChainSound(p, e);
    var h, added := History(p, e), t.Added();
    IdsConcat(h, added);
    assert m.id in Ids(h + added);
    assert t.summaryId !in Ids(h) + Ids(added);
    assert Written(p, e) !! Ids(added);
  }

  /** Whatever the policy, a summary the manager wrote never sits behind index `keep`. */
  lemma {:induction false} SummariesStayInFront(p: Policy, c: Chain, i: int)
    requires ValidChain(c) && HoldsSummaryAt(p, c, i)
    ensures i <= p.keep
  {
    match c
    case Start =>
    case Then(e, t) =>
      OneRun(p, e, t);
      if !Compacts(p, History(p, e) + t.Added(), t) {
        var was := OlderSummary(p, e, t, i);
        SummariesStayInFront(p, e, was);
      }
  }

  ghost predicate AtMostOneSummary(p: Policy, c: Chain) {
    forall i, j :: HoldsSummaryAt(p, c, i) && HoldsSummaryAt(p, c, j) ==> i == j
  }

  /** What can be checked of the settings beforehand. */
  predicate Roomy(p: Policy) {
    p.trigger >= 2 * p.keep || p.keep <= 2
  }

  lemma {:induction false} SummaryAtKeep(p: Policy, c: Chain, i: int)
    requires Enabled(p) && Roomy(p) && ValidChain(c) && HoldsSummaryAt(p, c, i)
    ensures i == p.keep
  {
    match c
    case Start =>
    case Then(e, t) =>
      OneRun(p, e, t);
      var compacts := Compacts(p, History(p, e) + t.Added(), t);
      if !compacts || i != p.keep {
        var was := OlderSummary(p, e, t, i);
        SummaryAtKeep(p, e, was);
      }
  }

  // ---- A conversation with two summaries, for every policy that is not roomy -----------------

  function Name(k: nat): (id: Id)
    ensures |id| == k + 1
  {
    seq(k + 1, _ => 'm')
  }

  function Numbered(from: nat, count: nat): (ms: seq<Message>)
    ensures |ms| == count
    ensures forall i :: 0 <= i < count ==> ms[i] == Message(Name(from + i), Ai, "", [])
  {
    seq(count, i requires 0 <= i < count => Message(Name(from + i), Ai, "", []))
  }

  function NumberedTurn(from: nat, count: nat): Turn
    requires count >= 1
  {
    Turn(Numbered(from, 1)[0], Numbered(from + 1, count), true, Name(from + 1 + count), "")
  }

  /** All ids have between 1 and `n` characters. */
  ghost predicate Short(ids: set<Id>, n: nat) {
    forall id :: id in ids ==> 0 < |id| <= n
  }

  lemma NumberedTurnShape(from: nat, count: nat)
    requires count >= 1
    ensures var t := NumberedTurn(from, count);
            && t.throughReply && t.replies != [] && |t.Added()| == count + 1
            && Distinct(t.Added())
            && |t.summaryId| == from + count + 2
    ensures forall id :: id in Ids(NumberedTurn(from, count).Added()) ==> from < |id| <= from + count + 1
  {
    assert NumberedTurn(from, count).Added() == Numbered(from, count + 1);
  }

  /** Any conversation can be continued by a run that appends `count + 1` messages. */
  lemma NextTurn(e: Chain, from: nat, count: nat) returns (t: Turn)
    requires ValidChain(e) && count >= 1 && Short(Used(e), from)
    ensures ValidChain(Then(e, t)) && t.throughReply && |t.Added()| == count + 1
    ensures Short(Used(Then(e, t)), from + count + 2)
  {
    t := NumberedTurn(from, count);
    NumberedTurnShape(from, count);
  }

  /** The first run: 2k + 1 messages, of which the last k and a summary stay. */
  lemma FirstSummary(p: Policy, e: Chain, t: Turn)
    requires Enabled(p) && !Roomy(p) && ValidChain(Then(e, t))
    requires t.throughReply && |History(p, e)| == 0 && |t.Added()| == 2 * p.keep + 1
    ensures |History(p, Then(e, t))| == p.keep + 1
    ensures HoldsSummaryAt(p, Then(e, t), p.keep)
  {
    OneRun(p, e, t);
  }

  /** A second run that reaches 2k messages puts its cut on the summary at index k. */
  lemma SecondSummary(p: Policy, e: Chain, t: Turn)
    requires Enabled(p) && !Roomy(p) && ValidChain(Then(e, t))
    requires t.throughReply && |t.Added()| == p.keep - 1
    requires |History(p, e)| == p.keep + 1 && HoldsSummaryAt(p, e, p.keep)
    ensures HoldsSummaryAt(p, Then(e, t), 0) && HoldsSummaryAt(p, Then(e, t), p.keep)
  {
    OneRun(p, e, t);
    var before, after := History(p, e) + t.Added(), History(p, Then(e, t));
    assert |before| == 2 * p.keep;
    assert Compacts(p, before, t);
    CutMovesToFront(before, p.keep, t.Note());
    assert after[0].id == History(p, e)[p.keep].id;
    assert Written(p, Then(e, t)) == Written(p, e) + {t.summaryId};
  }

  lemma CutMovesToFront(before: seq<Message>, keep: nat, note: Message)
    requires |before| == 2 * keep && keep >= 1
    ensures (before[|before| - keep..] + [note])[0] == before[keep]
    ensures (before[|before| - keep..] + [note])[keep] == note
  {
  }

  /** Any two runs that append 2k + 1 and then k - 1 messages leave two summaries. */
  lemma TwoSummaries(p: Policy, t: Turn, u: Turn)
    requires Enabled(p) && !Roomy(p)
    requires ValidChain(Then(Then(Start, t), u)) && t.throughReply && u.throughReply
    requires |t.Added()| == 2 * p.keep + 1 && |u.Added()| == p.keep - 1
    ensures !AtMostOneSummary(p, Then(Then(Start, t), u))
  {
    FirstSummary(p, Start, t);
    SecondSummary(p, Then(Start, t), u);
    assert HoldsSummaryAt(p, Then(Then(Start, t), u), 0);
  }

  /** Fed its own output, the graph ever holds at most one summary for exactly the roomy policies. */
  lemma AtMostOneSummaryIff(p: Policy)
    requires Enabled(p)
    ensures Roomy(p) <==> forall c :: ValidChain(c) ==> AtMostOneSummary(p, c)
  {
    if Roomy(p) {
      forall c, i, j | ValidChain(c) && HoldsSummaryAt(p, c, i) && HoldsSummaryAt(p, c, j)
        ensures i == j
      {
        SummaryAtKeep(p, c, i);
        SummaryAtKeep(p, c, j);
      }
    } else {
      var t := NextTurn(Start, 0, 2 * p.keep);
      var u := NextTurn(Then(Start, t), 2 * p.keep + 2, p.keep - 2);
      TwoSummaries(p, t, u);
    }
  }
}
