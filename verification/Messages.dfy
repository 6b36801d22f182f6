/**
 The message channel shared by every graph, and the contract of its id-keyed reducer:
 a message whose id is already present replaces that message in place, a new one is
 appended, and a removal marker deletes the message with its id.
 */
module Messages {

  type Id = string

  datatype Kind = Human | Ai | Tool | System

  /** One chat turn; `calls` holds the tool calls an AI turn asks for. */
  datatype Message = Message(id: Id, kind: Kind, content: string, calls: seq<string>)

  datatype Update = Put(message: Message) | Remove(id: Id)

  /** The reducer rejects a removal marker for an id it does not hold. */
  datatype Merged = Merged(messages: seq<Message>) | UnknownId(id: Id)

  function Ids(ms: seq<Message>): set<Id> {
    set m | m in ms :: m.id
  }

  ghost predicate Distinct(ms: seq<Message>) {
    forall i, j :: 0 <= i < j < |ms| ==> ms[i].id != ms[j].id
  }

  /** `ms` can be appended to `base`: all ids are new and different. */
  ghost predicate Fresh(base: seq<Message>, ms: seq<Message>) {
    Distinct(ms) && Ids(base) !! Ids(ms)
  }

  function IndexOf(ms: seq<Message>, id: Id): (i: nat)
    ensures i <= |ms|
    ensures i < |ms| ==> ms[i].id == id
    ensures forall k :: 0 <= k < i ==> ms[k].id != id
  {
    if ms == [] || ms[0].id == id then 0 else 1 + IndexOf(ms[1..], id)
  }

  function Without(ms: seq<Message>, doomed: set<Id>): seq<Message> {
    if ms == [] then []
    else (if ms[0].id in doomed then [] else [ms[0]]) + Without(ms[1..], doomed)
  }

  function Fold(ms: seq<Message>, doomed: set<Id>, updates: seq<Update>): Merged
    decreases |updates|
  {
    if updates == [] then Merged(Without(ms, doomed))
    else
      match updates[0]
      case Put(m) =>
        var i := IndexOf(ms, m.id);
        if i < |ms| then Fold(ms[i := m], doomed - {m.id}, updates[1..])
        else Fold(ms + [m], doomed, updates[1..])
      case Remove(id) =>
        if IndexOf(ms, id) < |ms| then Fold(ms, doomed + {id}, updates[1..])
        else UnknownId(id)
  }

  function AddMessages(ms: seq<Message>, updates: seq<Update>): Merged {
    Fold(ms, {}, updates)
  }

  function Puts(ms: seq<Message>): (us: seq<Update>)
    ensures |us| == |ms|
    ensures forall i :: 0 <= i < |ms| ==> us[i] == Put(ms[i])
  {
    seq(|ms|, i requires 0 <= i < |ms| => Put(ms[i]))
  }

  function Removes(ids: seq<Id>): (us: seq<Update>)
    ensures |us| == |ids|
    ensures forall i :: 0 <= i < |ids| ==> us[i] == Remove(ids[i])
  {
    seq(|ids|, i requires 0 <= i < |ids| => Remove(ids[i]))
  }

  /** What a graph reads after merging plain messages; merging never fails without removals. */
  function Merge(base: seq<Message>, ms: seq<Message>): seq<Message> {
    match AddMessages(base, Puts(ms))
    case Merged(r) => r
    case UnknownId(_) => base
  }

  lemma IdsConcat(a: seq<Message>, b: seq<Message>)
    ensures Ids(a + b) == Ids(a) + Ids(b)
  {
    assert forall m :: m in a + b <==> m in a || m in b;
  }

  lemma DistinctConcat(a: seq<Message>, b: seq<Message>)
    requires Distinct(a) && Fresh(a, b)
    ensures Distinct(a + b)
  {
    forall i, j | 0 <= i < j < |a + b|
      ensures (a + b)[i].id != (a + b)[j].id
    {
      if i < |a| <= j {
        assert a[i] in a && b[j - |a|] in b;
        assert a[i].id in Ids(a) && b[j - |a|].id in Ids(b);
      }
    }
  }

  lemma DistinctPart(a: seq<Message>, b: seq<Message>)
    requires Distinct(a + b)
    ensures Distinct(a) && Fresh(a, b)
  {
    assert forall i :: 0 <= i < |a| ==> (a + b)[i] == a[i];
    assert forall i :: 0 <= i < |b| ==> (a + b)[|a| + i] == b[i];
  }

  lemma {:induction false} WithoutConcat(a: seq<Message>, b: seq<Message>, doomed: set<Id>)
    ensures Without(a + b, doomed) == Without(a, doomed) + Without(b, doomed)
  {
    if a == [] {
      assert a + b == b;
    } else {
      assert (a + b)[1..] == a[1..] + b;
      WithoutConcat(a[1..], b, doomed);
    }
  }

  lemma {:induction false} WithoutNone(ms: seq<Message>, doomed: set<Id>)
    requires Ids(ms) !! doomed
    ensures Without(ms, doomed) == ms
  {
    if ms != [] {
      assert ms[0] in ms;
      assert Ids(ms[1..]) <= Ids(ms);
      WithoutNone(ms[1..], doomed);
    }
  }

  lemma {:induction false} WithoutAll(ms: seq<Message>, doomed: set<Id>)
    requires Ids(ms) <= doomed
    ensures Without(ms, doomed) == []
  {
    if ms != [] {
      assert ms[0] in ms;
      assert Ids(ms[1..]) <= Ids(ms);
      WithoutAll(ms[1..], doomed);
    }
  }

  lemma FoldPutNew(ms: seq<Message>, doomed: set<Id>, m: Message, us: seq<Update>)
    requires m.id !in Ids(ms) && us != [] && us[0] == Put(m)
    ensures Fold(ms, doomed, us) == Fold(ms + [m], doomed, us[1..])
  {
    if IndexOf(ms, m.id) < |ms| {
      assert ms[IndexOf(ms, m.id)] in ms;
    }
  }

  /** After the first of the fresh messages is appended the others are still fresh. */
  lemma StillFresh(ms: seq<Message>, added: seq<Message>)
    requires Fresh(ms, added) && added != []
    ensures Fresh(ms + [added[0]], added[1..])
  {
    IdsConcat(ms, [added[0]]);
    forall x | x in added[1..]
      ensures x.id !in Ids(ms + [added[0]])
    {
      assert x in added && x.id in Ids(added);
      var j :| 0 <= j < |added[1..]| && added[1..][j] == x;
      assert added[j + 1] == x;
    }
  }

  lemma {:induction false} FoldFresh(ms: seq<Message>, doomed: set<Id>, added: seq<Message>)
    requires Fresh(ms, added)
    ensures Fold(ms, doomed, Puts(added)) == Merged(Without(ms + added, doomed))
    decreases |added|
  {
    if added == [] {
      assert ms + added == ms;
    } else {
      var m := added[0];
      assert m in added && m.id in Ids(added);
      FoldPutNew(ms, doomed, m, Puts(added));
      assert Puts(added)[1..] == Puts(added[1..]);
      StillFresh(ms, added);
      FoldFresh(ms + [m], doomed, added[1..]);
      assert (ms + [m]) + added[1..] == ms + added;
    }
  }

  /**
   Merging messages the channel already holds unchanged, followed by new ones, only appends
   the new ones. It covers a node's answer (nothing known), a sub-graph handing back its
   whole list (everything known), and a compacted list coming back (a part known).
   */
  lemma {:induction false} MergeAppends(base: seq<Message>, known: seq<Message>, added: seq<Message>)
    requires Distinct(base) && Fresh(base, added)
    requires forall m :: m in known ==> m in base
    ensures AddMessages(base, Puts(known + added)) == Merged(base + added)
    ensures Merge(base, known + added) == base + added
    decreases |known|
  {
    if known == [] {
      assert known + added == added;
      FoldFresh(base, {}, added);
      WithoutNone(base + added, {});
    } else {
      var m := known[0];
      var i := IndexOf(base, m.id);
      assert m in known;
      assert exists k :: 0 <= k < |base| && base[k] == m;
      assert i < |base| && base[i] == m;
      assert base[i := m] == base;
      assert Puts(known + added)[1..] == Puts(known[1..] + added);
      var none: set<Id> := {};
      assert none - {m.id} == none;
      MergeAppends(base, known[1..], added);
    }
  }

  lemma {:induction false} FoldRemoves(ms: seq<Message>, doomed: set<Id>, ids: seq<Id>, rest: seq<Update>)
    requires forall id :: id in ids ==> id in Ids(ms)
    ensures Fold(ms, doomed, Removes(ids) + rest) == Fold(ms, doomed + (set id | id in ids), rest)
    decreases |ids|
  {
    if ids == [] {
      assert Removes(ids) + rest == rest;
      assert doomed + (set id | id in ids) == doomed;
    } else {
      var us := Removes(ids) + rest;
      assert us[0] == Remove(ids[0]);
      assert us[1..] == Removes(ids[1..]) + rest;
      assert ids[0] in Ids(ms);
      assert IndexOf(ms, ids[0]) < |ms|;
      FoldRemoves(ms, doomed + {ids[0]}, ids[1..], rest);
      assert doomed + {ids[0]} + (set id | id in ids[1..]) == doomed + (set id | id in ids);
    }
  }

  lemma {:induction false} WithoutMembers(ms: seq<Message>, doomed: set<Id>)
    ensures forall m :: m in Without(ms, doomed) <==> m in ms && m.id !in doomed
  {
    if ms != [] {
      WithoutMembers(ms[1..], doomed);
      assert ms == [ms[0]] + ms[1..];
    }
  }

  lemma {:induction false} UnknownRemovalFails(ms: seq<Message>, doomed: set<Id>, ids: seq<Id>)
    requires exists id :: id in ids && id !in Ids(ms)
    ensures Fold(ms, doomed, Removes(ids)).UnknownId?
    decreases |ids|
  {
    assert Removes(ids)[1..] == Removes(ids[1..]);
    if ids[0] in Ids(ms) {
      UnknownRemovalFails(ms, doomed + {ids[0]}, ids[1..]);
    }
  }

  /** Removals delete exactly the messages with their ids, and fail exactly on an unknown id. */
  lemma RemovalsDelete(ms: seq<Message>, ids: seq<Id>)
    ensures var r := AddMessages(ms, Removes(ids));
            && (r.Merged? <==> forall id :: id in ids ==> id in Ids(ms))
            && (r.Merged? ==> forall m :: m in r.messages <==> m in ms && m.id !in ids)
  {
    if forall id :: id in ids ==> id in Ids(ms) {
      var doomed := set id | id in ids;
      var none: set<Id> := {};
      assert Removes(ids) + [] == Removes(ids) && none + doomed == doomed;
      FoldRemoves(ms, none, ids, []);
      WithoutMembers(ms, doomed);
    } else {
      UnknownRemovalFails(ms, {}, ids);
    }
  }

  lemma FoldNothing(ms: seq<Message>, doomed: set<Id>)
    requires doomed == {}
    ensures Fold(ms, doomed, []) == Merged(ms)
  {
    WithoutNone(ms, doomed);
  }

  lemma FoldOne(ms: seq<Message>, m: Message, us: seq<Update>, doomed: set<Id>)
    requires us == [Put(m)] && doomed == {}
    ensures Fold(ms, doomed, us)
            == Merged(if IndexOf(ms, m.id) < |ms| then ms[IndexOf(ms, m.id) := m] else ms + [m])
  {
    assert us[1..] == [] && doomed - {m.id} == doomed;
    FoldNothing(if IndexOf(ms, m.id) < |ms| then ms[IndexOf(ms, m.id) := m] else ms + [m], doomed);
  }

  /** A message whose id is present replaces that message in its place; any other is appended. */
  lemma PutReplaces(ms: seq<Message>, m: Message)
    requires Distinct(ms)
    ensures m.id !in Ids(ms) ==> AddMessages(ms, [Put(m)]) == Merged(ms + [m])
    ensures forall i :: 0 <= i < |ms| && ms[i].id == m.id ==> AddMessages(ms, [Put(m)]) == Merged(ms[i := m])
  {
    FoldOne(ms, m, [Put(m)], {});
    var at := IndexOf(ms, m.id);
    if at < |ms| {
      assert ms[at] in ms;
    }
  }

  /** A merge without removals keeps every id, whatever it merges. */
  lemma {:induction false} FoldKeepsIds(ms: seq<Message>, more: seq<Message>)
    ensures Fold(ms, {}, Puts(more)).Merged?
    ensures Ids(ms) + Ids(more) == Ids(Fold(ms, {}, Puts(more)).messages)
    decreases |more|
  {
    if more == [] {
      WithoutNone(ms, {});
      assert Ids(more) == {};
    } else {
      var m := more[0];
      var i := IndexOf(ms, m.id);
      assert Puts(more)[1..] == Puts(more[1..]);
      assert more == [m] + more[1..];
      IdsConcat([m], more[1..]);
      var none: set<Id> := {};
      assert none - {m.id} == none;
      if i < |ms| {
        assert forall k :: 0 <= k < |ms| ==> ms[i := m][k].id == ms[k].id;
        IdsByIndex(ms, ms[i := m]);
        assert ms[i] in ms;
        FoldKeepsIds(ms[i := m], more[1..]);
      } else {
        IdsConcat(ms, [m]);
        FoldKeepsIds(ms + [m], more[1..]);
      }
    }
  }

  lemma IdsByIndex(a: seq<Message>, b: seq<Message>)
    requires |a| == |b| && forall k :: 0 <= k < |a| ==> a[k].id == b[k].id
    ensures Ids(a) == Ids(b)
  {
    forall m | m in a
      ensures m.id in Ids(b)
    {
      var k :| 0 <= k < |a| && a[k] == m;
      assert b[k] in b;
    }
    forall m | m in b
      ensures m.id in Ids(a)
    {
      var k :| 0 <= k < |b| && b[k] == m;
      assert a[k] in a;
    }
  }
}
