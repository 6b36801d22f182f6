/**
 The service calls as interleaved transactions. Every call reads the committed tables at one
 or more moments, decides on one write, and commits it; anything may happen in between.
 */
module Transactions {
  import opened Wrappers
  import opened Store

  datatype Call =
    | Register(user: User)
    | UpdateUser(id: Id, name: Option<string>, email: Option<string>, active: Option<bool>, now: int)
    | DeleteUser(id: Id)
    | CreateSession(session: Session)
    | RenameSession(id: Id, owner: Id, title: string, now: int)
    | DeleteSession(id: Id, owner: Id)

  /** `MissingRow` is a repository's `ValueError`; no service call raises it. */
  datatype Error = AlreadyExists | NotFound | Invalid | Conflict | Aborted | MissingRow

  /** Where a transaction stands. `Loaded` holds the row an update read first. */
  datatype Tx =
    | Begun(call: Call)
    | Loaded(call: Call, row: User)
    | Flushed(write: Write)
    | Returned
    | Raised(error: Error)

  function Changed<T(==)>(old_: T, new_: T): Option<T> {
    if old_ == new_ then None else Some(new_)
  }

  /** The attributes an update of `row` to `u` writes. */
  function Diff(row: User, u: User): Patch {
    Patch(Changed(row.name, u.name), Changed(row.email, u.email), Changed(row.active, u.active))
  }

  /** `model_copy` of an update. */
  function Edited(row: User, c: Call): User
    requires c.UpdateUser?
  {
    row.(name := c.name.Or(row.name), email := c.email.Or(row.email), active := c.active.Or(row.active))
  }

  predicate OwnedSession(db: Db, id: Id, owner: Id) {
    id in db.sessions && db.sessions[id].userId == owner
  }

  /** One database round trip of a transaction that has not flushed yet. */
  function Decide(db: Db, tx: Tx, emailOk: string -> bool): Tx
    requires tx.Begun? || (tx.Loaded? && tx.call.UpdateUser?)
  {
    if tx.Loaded? then
      var c, u := tx.call, Edited(tx.row, tx.call);
      if c.email.Some? && c.email.value != "" && c.email.value != tx.row.email && EmailTaken(db, c.email.value, c.id)
      then Raised(AlreadyExists)
      else if !WellFormedUser(u, emailOk) then Raised(Invalid)
      else Flushed(PatchUser(c.id, Diff(tx.row, u), c.now))
    else
      match tx.call
      case Register(u) =>
        if exists id :: id in db.users && db.users[id].email == u.email then Raised(AlreadyExists)
        else if !WellFormedUser(u, emailOk) then Raised(Invalid)
        else Flushed(InsertUser(u))
      case UpdateUser(id, _, _, _, _) =>
        if id in db.users then Loaded(tx.call, db.users[id]) else Raised(NotFound)
      case DeleteUser(id) =>
        if id in db.users then Flushed(RemoveUser(id)) else Raised(NotFound)
      case CreateSession(s) =>
        if WellFormedSession(s) then Flushed(InsertSession(s)) else Raised(Invalid)
      case RenameSession(id, owner, title, now) =>
        if !OwnedSession(db, id, owner) then Raised(NotFound)
        else if |title| > 255 then Raised(Invalid)
        else Flushed(PatchSession(id, Changed(db.sessions[id].title, title), now))
      case DeleteSession(id, owner) =>
        if OwnedSession(db, id, owner) then Flushed(RemoveSession(id)) else Raised(NotFound)
  }

  datatype World = World(db: Db, txs: map<nat, Tx>)

  /** A call starts, a transaction takes its next step, or it is cancelled and rolled back. */
  datatype Event = Begin(tx: nat, call: Call) | Proceed(tx: nat) | Abort(tx: nat)

  predicate Active(tx: Tx) {
    !tx.Returned? && !tx.Raised?
  }

  predicate WellFormedTx(tx: Tx, emailOk: string -> bool) {
    && (tx.Loaded? ==> tx.call.UpdateUser? && WellFormedUser(tx.row, emailOk))
    && (tx.Flushed? ==> WellFormedWrite(tx.write, emailOk))
  }

  function Step(w: World, e: Event, emailOk: string -> bool): World {
    match e
    case Begin(t, c) => if t in w.txs then w else w.(txs := w.txs[t := Begun(c)])
    case Abort(t) => if t in w.txs && Active(w.txs[t]) then w.(txs := w.txs[t := Raised(Aborted)]) else w
    case Proceed(t) =>
      if t !in w.txs || !Active(w.txs[t]) then w
      else
        var tx := w.txs[t];
        if tx.Flushed? then
          match Apply(w.db, tx.write)
          case Done(db) => World(db, w.txs[t := Returned])
          case Violated => w.(txs := w.txs[t := Raised(Conflict)])
        else if tx.Begun? || tx.call.UpdateUser? then w.(txs := w.txs[t := Decide(w.db, tx, emailOk)])
        else w
  }

  /** An arbitrary interleaving, in order. */
  datatype Schedule = Start | Then(earlier: Schedule, event: Event)

  function State(s: Schedule, db: Db, emailOk: string -> bool): World {
    match s
    case Start => World(db, map[])
    case Then(e, ev) => Step(State(e, db, emailOk), ev, emailOk)
  }

  /** The writes that were committed, with their transactions, in commit order. */
  function Committed(s: Schedule, db: Db, emailOk: string -> bool): seq<(nat, Write)> {
    match s
    case Start => []
    case Then(e, ev) => Committed(e, db, emailOk) + Commit(State(e, db, emailOk), ev)
  }

  function Commit(w: World, ev: Event): seq<(nat, Write)> {
    if ev.Proceed? && ev.tx in w.txs && w.txs[ev.tx].Flushed? && Apply(w.db, w.txs[ev.tx].write).Done?
    then [(ev.tx, w.txs[ev.tx].write)] else []
  }

  /** The call transaction `t` was begun with. */
  function CallOf(s: Schedule, t: nat): Option<Call> {
    match s
    case Start => None
    case Then(e, ev) =>
      if CallOf(e, t).Some? then CallOf(e, t)
      else if ev.Begin? && ev.tx == t then Some(ev.call)
      else None
  }

  /** The committed tables at the first database round trip of transaction `t`. */
  function Seen(s: Schedule, t: nat, db: Db, emailOk: string -> bool): Option<Db> {
    match s
    case Start => None
    case Then(e, ev) =>
      if Seen(e, t, db, emailOk).Some? then Seen(e, t, db, emailOk)
      else if ev.Proceed? && ev.tx == t && t in State(e, db, emailOk).txs && Active(State(e, db, emailOk).txs[t])
      then Some(State(e, db, emailOk).db)
      else None
  }

  /** The write a call asks for, given the tables it read. */
  ghost predicate WroteFor(c: Call, seen: Db, w: Write) {
    match c
    case Register(u) => w == InsertUser(u)
    case UpdateUser(id, _, _, _, now) =>
      id in seen.users && w == PatchUser(id, Diff(seen.users[id], Edited(seen.users[id], c)), now)
    case DeleteUser(id) => id in seen.users && w == RemoveUser(id)
    case CreateSession(x) => w == InsertSession(x)
    case RenameSession(id, owner, title, now) =>
      OwnedSession(seen, id, owner) && w == PatchSession(id, Changed(seen.sessions[id].title, title), now)
    case DeleteSession(id, owner) => OwnedSession(seen, id, owner) && w == RemoveSession(id)
  }

  /** Where a transaction stands agrees with its call and with what it read. */
  ghost predicate Follows(c: Call, seen: Option<Db>, tx: Tx) {
    match tx
    case Begun(d) => d == c && seen == None
    case Loaded(d, row) =>
      d == c && c.UpdateUser? && seen.Some? && c.id in seen.value.users && row == seen.value.users[c.id]
    case Flushed(w) => seen.Some? && WroteFor(c, seen.value, w)
    case _ => true
  }

  ghost predicate Tracks(s: Schedule, t: nat, db: Db, emailOk: string -> bool) {
    var w := State(s, db, emailOk);
    if t in w.txs then CallOf(s, t).Some? && Follows(CallOf(s, t).value, Seen(s, t, db, emailOk), w.txs[t])
    else CallOf(s, t) == None && Seen(s, t, db, emailOk) == None
  }

  lemma {:induction false} EveryTransactionTracks(s: Schedule, t: nat, db: Db, emailOk: string -> bool)
    ensures Tracks(s, t, db, emailOk)
  {
    match s
    case Start =>
    case Then(e, ev) =>
      EveryTransactionTracks(e, t, db, emailOk);
      if ev.tx == t {
        TracksOn(e, ev, db, emailOk);
      }
  }

  lemma TracksOn(e: Schedule, ev: Event, db: Db, emailOk: string -> bool)
    requires Tracks(e, ev.tx, db, emailOk)
    ensures Tracks(Then(e, ev), ev.tx, db, emailOk)
  {
    var w := State(e, db, emailOk);
    if ev.Proceed? && ev.tx in w.txs && Active(w.txs[ev.tx]) && !w.txs[ev.tx].Flushed? {
      DecideFollows(CallOf(e, ev.tx).value, Seen(e, ev.tx, db, emailOk), w.txs[ev.tx], w.db, emailOk);
    }
  }

  /** What a round trip decides follows from the call and the tables of the first one. */
  lemma DecideFollows(c: Call, seen: Option<Db>, tx: Tx, db: Db, emailOk: string -> bool)
    requires Follows(c, seen, tx) && Active(tx) && !tx.Flushed?
    ensures Follows(c, Some(if seen.Some? then seen.value else db), Decide(db, tx, emailOk))
  {
  }

  /** The logged writes are those their calls ask for. */
  ghost predicate Honest(s: Schedule, db: Db, emailOk: string -> bool, log: seq<(nat, Write)>) {
    forall i :: 0 <= i < |log| ==>
      && CallOf(s, log[i].0).Some? && Seen(s, log[i].0, db, emailOk).Some?
      && WroteFor(CallOf(s, log[i].0).value, Seen(s, log[i].0, db, emailOk).value, log[i].1)
  }

  /** The committed writes one after the other, without any interleaving. */
  function Replay(db: Db, writes: seq<(nat, Write)>): Applied {
    if writes == [] then Done(db)
    else
      match Replay(db, writes[..|writes| - 1])
      case Violated => Violated
      case Done(d) => Apply(d, writes[|writes| - 1].1)
  }

  ghost predicate Inv(w: World, emailOk: string -> bool) {
    Valid(w.db, emailOk) && forall t :: t in w.txs ==> WellFormedTx(w.txs[t], emailOk)
  }

  lemma StepInv(w: World, e: Event, emailOk: string -> bool)
    requires Inv(w, emailOk)
    ensures Inv(Step(w, e, emailOk), emailOk)
  {
    if e.Proceed? && e.tx in w.txs && w.txs[e.tx].Flushed? && Apply(w.db, w.txs[e.tx].write).Done? {
      ApplyKeepsValid(w.db, w.txs[e.tx].write, emailOk);
    }
  }

  /** In every interleaving the committed tables keep their constraints. */
  lemma {:induction false} AlwaysValid(s: Schedule, db: Db, emailOk: string -> bool)
    requires Valid(db, emailOk)
    ensures Inv(State(s, db, emailOk), emailOk)
  {
    match s
    case Start =>
    case Then(e, ev) =>
      AlwaysValid(e, db, emailOk);
      StepInv(State(e, db, emailOk), ev, emailOk);
  }

  ghost predicate Credits(w: World, log: seq<(nat, Write)>) {
    && (forall i :: 0 <= i < |log| ==> log[i].0 in w.txs && w.txs[log[i].0].Returned?)
    && (forall t :: t in w.txs && w.txs[t].Returned? ==> exists i :: 0 <= i < |log| && log[i].0 == t)
    && (forall i, j :: 0 <= i < j < |log| ==> log[i].0 != log[j].0)
  }

  lemma {:induction false} CommittedIsHonest(s: Schedule, db: Db, emailOk: string -> bool)
    ensures Honest(s, db, emailOk, Committed(s, db, emailOk))
  {
    match s
    case Start =>
    case Then(e, ev) =>
      CommittedIsHonest(e, db, emailOk);
      EveryTransactionTracks(e, ev.tx, db, emailOk);
      HonestOn(e, ev, db, emailOk, Committed(e, db, emailOk));
  }

  lemma HonestOn(e: Schedule, ev: Event, db: Db, emailOk: string -> bool, log: seq<(nat, Write)>)
    requires Honest(e, db, emailOk, log) && Tracks(e, ev.tx, db, emailOk)
    ensures Honest(Then(e, ev), db, emailOk, log + Commit(State(e, db, emailOk), ev))
  {
  }

  lemma {:induction false} CommittedIsReplay(s: Schedule, db: Db, emailOk: string -> bool)
    ensures Replay(db, Committed(s, db, emailOk)) == Done(State(s, db, emailOk).db)
    ensures Credits(State(s, db, emailOk), Committed(s, db, emailOk))
  {
    match s
    case Start =>
    case Then(e, ev) =>
      CommittedIsReplay(e, db, emailOk);
      var w, log := State(e, db, emailOk), Committed(e, db, emailOk);
      var more := Commit(w, ev);
      if more == [] {
        assert log + more == log;
        NothingCommitted(w, ev, log, emailOk);
      } else {
        assert (log + more)[..|log|] == log;
        OneCommitted(w, ev, log, emailOk);
      }
  }

  /**
   Every interleaving is equivalent to running, one after the other, exactly one write of each
   call that returned, in commit order, and that write is the one the call asks for, given the
   tables it read; a call that raised, or is still running, wrote nothing.
   */
  lemma InterleavingIsReplay(s: Schedule, db: Db, emailOk: string -> bool)
    ensures Replay(db, Committed(s, db, emailOk)) == Done(State(s, db, emailOk).db)
    ensures Credits(State(s, db, emailOk), Committed(s, db, emailOk))
    ensures Honest(s, db, emailOk, Committed(s, db, emailOk))
  {
    CommittedIsReplay(s, db, emailOk);
    CommittedIsHonest(s, db, emailOk);
  }

  lemma NothingCommitted(w: World, ev: Event, log: seq<(nat, Write)>, emailOk: string -> bool)
    requires Credits(w, log) && Commit(w, ev) == []
    ensures Credits(Step(w, ev, emailOk), log) && Step(w, ev, emailOk).db == w.db
  {
    var w' := Step(w, ev, emailOk);
    forall t | t in w'.txs && w'.txs[t].Returned?
      ensures exists i :: 0 <= i < |log| && log[i].0 == t
    {
      assert t in w.txs && w.txs[t].Returned?;
    }
  }

  lemma OneCommitted(w: World, ev: Event, log: seq<(nat, Write)>, emailOk: string -> bool)
    requires Credits(w, log) && Commit(w, ev) != []
    ensures Credits(Step(w, ev, emailOk), log + Commit(w, ev))
    ensures Done(Step(w, ev, emailOk).db) == Apply(w.db, Commit(w, ev)[0].1)
  {
    var w', longer := Step(w, ev, emailOk), log + Commit(w, ev);
    assert longer[|log|].0 == ev.tx;
    forall t | t in w'.txs && w'.txs[t].Returned?
      ensures exists i :: 0 <= i < |longer| && longer[i].0 == t
    {
      if t != ev.tx {
        var i :| 0 <= i < |log| && log[i].0 == t;
        assert longer[i].0 == t;
      }
    }
  }

  // ---- A call without interference --------------------------------------------------------------------

  /** What one call does when nothing else happens between its steps. */
  function Serial(db: Db, c: Call, emailOk: string -> bool): (Db, Tx) {
    var first := Decide(db, Begun(c), emailOk);
    var tx := if first.Loaded? && first.call.UpdateUser? then Decide(db, first, emailOk) else first;
    if tx.Flushed? then Outcome(db, tx.write) else (db, tx)
  }

  /** An undisturbed update reads one row, checks the new address against the same tables, and writes. */
  lemma SerialUpdate(db: Db, c: Call, emailOk: string -> bool)
    requires c.UpdateUser?
    ensures c.id !in db.users ==> Serial(db, c, emailOk) == (db, Raised(NotFound))
    ensures c.id in db.users ==>
      var tx := Decide(db, Loaded(c, db.users[c.id]), emailOk);
      Serial(db, c, emailOk) == if tx.Flushed? then Outcome(db, tx.write) else (db, tx)
  {
  }

  lemma SerialRename(db: Db, c: Call, emailOk: string -> bool)
    requires c.RenameSession? && Valid(db, emailOk)
    ensures !OwnedSession(db, c.id, c.owner) ==> Serial(db, c, emailOk) == (db, Raised(NotFound))
    ensures OwnedSession(db, c.id, c.owner) ==>
      var row := db.sessions[c.id];
      Serial(db, c, emailOk) == if WellFormedSession(row.(title := c.title))
                                then Outcome(db, PatchSession(c.id, Changed(row.title, c.title), c.now))
                                else (db, Raised(Invalid))
  {
  }

  function Outcome(db: Db, w: Write): (Db, Tx) {
    match Apply(db, w)
    case Done(d) => (d, Returned)
    case Violated => (db, Raised(Conflict))
  }

  lemma SerialIsSchedule(db: Db, c: Call, t: nat, emailOk: string -> bool) returns (s: Schedule)
    ensures State(s, db, emailOk) == World(Serial(db, c, emailOk).0, map[t := Serial(db, c, emailOk).1])
  {
    s := Then(Then(Start, Begin(t, c)), Proceed(t));
    var none: map<nat, Tx> := map[];
    var first := Decide(db, Begun(c), emailOk);
    assert State(Then(Start, Begin(t, c)), db, emailOk) == World(db, none[t := Begun(c)]);
    assert State(s, db, emailOk) == World(db, map[t := first]);
    if first.Loaded? {
      var second := Decide(db, first, emailOk);
      s := Then(s, Proceed(t));
      assert State(s, db, emailOk) == World(db, map[t := second]);
      first := second;
    }
    if first.Flushed? {
      s := Then(s, Proceed(t));
    }
  }

  /**
   Without interference the checks suffice but for new ids, a session's missing user, and an
   update to the empty address, which the check for taken addresses skips.
   */
  lemma SerialConflicts(db: Db, c: Call, emailOk: string -> bool)
    requires Valid(db, emailOk)
    ensures Serial(db, c, emailOk).1 == Raised(Conflict)
            <==> match c
                 case Register(u) =>
                   && u.id in db.users && WellFormedUser(u, emailOk)
                   && forall id :: id in db.users ==> db.users[id].email != u.email
                 case CreateSession(s) =>
                   WellFormedSession(s) && (s.id in db.sessions || s.userId !in db.users)
                 case UpdateUser(id, _, email, _, _) =>
                   && id in db.users && email == Some("") && db.users[id].email != ""
                   && EmailTaken(db, "", id) && WellFormedUser(Edited(db.users[id], c), emailOk)
                 case _ => false
  {
  }
}
