/**
 What the calls of an interleaving do to the committed tables: each returned call has its own
 effect in one step, and no other step has any.
 */
module CallEffects {
  import opened Wrappers
  import opened Store
  import opened Transactions

  /** A field after an update: written only if it was asked for and differed from what was read. */
  function Written<T(==)>(read: T, asked: Option<T>, current: T): T {
    if asked.Some? && asked.value != read then asked.value else current
  }

  /** A row after an update that read `read`; nothing but the fields asked for can change. */
  function Updated(row: User, read: User, c: Call): User
    requires c.UpdateUser?
  {
    var v := row.(name := Written(read.name, c.name, row.name),
                  email := Written(read.email, c.email, row.email),
                  active := Written(read.active, c.active, row.active));
    if Edited(read, c) == read then v else v.(updatedAt := c.now)
  }

  function Retitled(row: Session, read: Session, c: Call): Session
    requires c.RenameSession?
  {
    if c.title == read.title then row else row.(title := c.title, updatedAt := c.now)
  }

  ghost predicate SameUsersBut(before: Db, after: Db, id: Id) {
    && (forall k :: k in before.users && k != id ==> k in after.users && after.users[k] == before.users[k])
    && forall k :: k in after.users && k != id ==> k in before.users
  }

  ghost predicate SameSessionsBut(before: Db, after: Db, id: Id) {
    && (forall k :: k in before.sessions && k != id ==> k in after.sessions && after.sessions[k] == before.sessions[k])
    && forall k :: k in after.sessions && k != id ==> k in before.sessions
  }

  /** What a returned call did to the committed tables, given the tables it had read. */
  ghost predicate Effect(c: Call, seen: Db, before: Db, after: Db) {
    match c
    case Register(u) =>
      && after.sessions == before.sessions && SameUsersBut(before, after, u.id)
      && u.id !in before.users && u.id in after.users && after.users[u.id] == u
      && forall k :: k in before.users ==> before.users[k].email != u.email
    case UpdateUser(id, _, _, _, _) =>
      && after.sessions == before.sessions && SameUsersBut(before, after, id)
      && id in seen.users && (id in after.users <==> id in before.users)
      && (id in before.users ==> after.users[id] == Updated(before.users[id], seen.users[id], c))
    case DeleteUser(id) =>
      && id in seen.users && SameUsersBut(before, after, id) && id !in after.users
      && (forall k :: k in after.sessions <==> k in before.sessions && before.sessions[k].userId != id)
      && forall k :: k in after.sessions ==> after.sessions[k] == before.sessions[k]
    case CreateSession(s) =>
      && after.users == before.users && SameSessionsBut(before, after, s.id)
      && s.userId in before.users
      && s.id !in before.sessions && s.id in after.sessions && after.sessions[s.id] == s
    case RenameSession(id, owner, _, _) =>
      && after.users == before.users && SameSessionsBut(before, after, id)
      && OwnedSession(seen, id, owner) && (id in after.sessions <==> id in before.sessions)
      && (id in before.sessions ==> after.sessions[id] == Retitled(before.sessions[id], seen.sessions[id], c))
    case DeleteSession(id, owner) =>
      && after.users == before.users && SameSessionsBut(before, after, id)
      && OwnedSession(seen, id, owner) && id !in after.sessions
  }

  lemma PatchUpdates(row: User, read: User, c: Call)
    requires c.UpdateUser?
    ensures var p := Diff(read, Edited(read, c));
            && Patched(row, p, c.now) == Updated(row, read, c)
            && (p == NO_PATCH <==> Edited(read, c) == read)
  {
  }

  lemma UserWriteHasEffect(c: Call, seen: Db, w: Write, before: Db)
    requires w.InsertUser? || w.PatchUser? || w.RemoveUser?
    requires WroteFor(c, seen, w) && Apply(before, w).Done?
    ensures Effect(c, seen, before, Apply(before, w).db)
  {
    if c.UpdateUser? && c.id in before.users {
      PatchUpdates(before.users[c.id], seen.users[c.id], c);
    }
  }

  lemma WriteHasEffect(c: Call, seen: Db, w: Write, before: Db)
    requires WroteFor(c, seen, w) && Apply(before, w).Done?
    ensures Effect(c, seen, before, Apply(before, w).db)
  {
    if w.InsertUser? || w.PatchUser? || w.RemoveUser? {
      UserWriteHasEffect(c, seen, w, before);
    }
  }

  /** The event at the end made its transaction return. */
  ghost predicate Returns(e: Schedule, ev: Event, db: Db, emailOk: string -> bool) {
    var w, w' := State(e, db, emailOk), State(Then(e, ev), db, emailOk);
    ev.tx in w.txs && !w.txs[ev.tx].Returned? && w'.txs[ev.tx].Returned?
  }

  /** In every interleaving a call that returns has its effect on the committed tables, in that step. */
  lemma ReturnHasEffect(e: Schedule, ev: Event, db: Db, emailOk: string -> bool)
    requires Returns(e, ev, db, emailOk)
    ensures CallOf(e, ev.tx).Some? && Seen(e, ev.tx, db, emailOk).Some?
    ensures Effect(CallOf(e, ev.tx).value, Seen(e, ev.tx, db, emailOk).value,
                   State(e, db, emailOk).db, State(Then(e, ev), db, emailOk).db)
  {
    var w := State(e, db, emailOk);
    EveryTransactionTracks(e, ev.tx, db, emailOk);
    OnlyFlushedReturns(w, ev, emailOk);
    WriteHasEffect(CallOf(e, ev.tx).value, Seen(e, ev.tx, db, emailOk).value, w.txs[ev.tx].write, w.db);
  }

  lemma OnlyFlushedReturns(w: World, ev: Event, emailOk: string -> bool)
    requires ev.tx in w.txs && !w.txs[ev.tx].Returned? && Step(w, ev, emailOk).txs[ev.tx].Returned?
    ensures ev.Proceed? && w.txs[ev.tx].Flushed?
    ensures Apply(w.db, w.txs[ev.tx].write) == Done(Step(w, ev, emailOk).db)
  {
  }

  /**
   The committed tables change only by the effects of calls: a step in which a call returns has
   that call's effect, and every other step, a call that raises among them, has none.
   */
  lemma EveryStepIsAnEffect(e: Schedule, ev: Event, db: Db, emailOk: string -> bool)
    ensures var before, after := State(e, db, emailOk).db, State(Then(e, ev), db, emailOk).db;
            if Returns(e, ev, db, emailOk) then
              && CallOf(e, ev.tx).Some? && Seen(e, ev.tx, db, emailOk).Some?
              && Effect(CallOf(e, ev.tx).value, Seen(e, ev.tx, db, emailOk).value, before, after)
            else after == before
  {
    if Returns(e, ev, db, emailOk) {
      ReturnHasEffect(e, ev, db, emailOk);
    }
  }

  // ---- When a returned update or rename is visible ------------------------------------------------

  ghost predicate Meets(c: Call, u: User)
    requires c.UpdateUser?
  {
    && (c.name.Some? ==> u.name == c.name.value)
    && (c.email.Some? ==> u.email == c.email.value)
    && (c.active.Some? ==> u.active == c.active.value)
  }

  /** A field asked for looked right when it was read, and another call has changed it since. */
  ghost predicate Overlooked(c: Call, read: User, row: User)
    requires c.UpdateUser?
  {
    || (c.name == Some(read.name) && row.name != read.name)
    || (c.email == Some(read.email) && row.email != read.email)
    || (c.active == Some(read.active) && row.active != read.active)
  }

  lemma UpdatedMeets(row: User, read: User, c: Call)
    requires c.UpdateUser?
    ensures Meets(c, Updated(row, read, c)) <==> !Overlooked(c, read, row)
  {
  }

  /**
   A returned update leaves its fields at the values asked for exactly when the row still
   exists and no field was overlooked; it returns either way.
   */
  lemma UpdateIsVisibleIff(e: Schedule, ev: Event, db: Db, emailOk: string -> bool, c: Call)
    requires Returns(e, ev, db, emailOk) && CallOf(e, ev.tx) == Some(c) && c.UpdateUser?
    ensures var before, after := State(e, db, emailOk).db, State(Then(e, ev), db, emailOk).db;
            && Seen(e, ev.tx, db, emailOk).Some? && c.id in Seen(e, ev.tx, db, emailOk).value.users
            && var read := Seen(e, ev.tx, db, emailOk).value.users[c.id];
               (c.id in after.users && Meets(c, after.users[c.id]))
               <==> (c.id in before.users && !Overlooked(c, read, before.users[c.id]))
  {
    ReturnHasEffect(e, ev, db, emailOk);
    var before := State(e, db, emailOk).db;
    if c.id in before.users {
      UpdatedMeets(before.users[c.id], Seen(e, ev.tx, db, emailOk).value.users[c.id], c);
    }
  }

  /** The same for a rename. */
  lemma RenameIsVisibleIff(e: Schedule, ev: Event, db: Db, emailOk: string -> bool, c: Call)
    requires Returns(e, ev, db, emailOk) && CallOf(e, ev.tx) == Some(c) && c.RenameSession?
    ensures var before, after := State(e, db, emailOk).db, State(Then(e, ev), db, emailOk).db;
            && Seen(e, ev.tx, db, emailOk).Some? && c.id in Seen(e, ev.tx, db, emailOk).value.sessions
            && var read := Seen(e, ev.tx, db, emailOk).value.sessions[c.id];
               (c.id in after.sessions && after.sessions[c.id].title == c.title)
               <==> (c.id in before.sessions && (c.title == read.title ==> before.sessions[c.id].title == read.title))
  {
    ReturnHasEffect(e, ev, db, emailOk);
  }

  lemma Loads(s: Schedule, t: nat, c: Call, db: Db, emailOk: string -> bool) returns (longer: Schedule)
    requires c.UpdateUser? && t !in State(s, db, emailOk).txs && c.id in State(s, db, emailOk).db.users
    ensures var w := State(s, db, emailOk);
            State(longer, db, emailOk) == World(w.db, w.txs[t := Loaded(c, w.db.users[c.id])])
    ensures CallOf(longer, t) == Some(c)
    ensures forall u :: u != t ==> CallOf(longer, u) == CallOf(s, u)
  {
    EveryTransactionTracks(s, t, db, emailOk);
    var begun := Then(s, Begin(t, c));
    longer := Then(begun, Proceed(t));
    var w := State(s, db, emailOk);
    assert State(begun, db, emailOk) == World(w.db, w.txs[t := Begun(c)]);
    assert w.txs[t := Begun(c)][t := Loaded(c, w.db.users[c.id])] == w.txs[t := Loaded(c, w.db.users[c.id])];
  }

  lemma Writes(s: Schedule, t: nat, c: Call, row: User, db: Db, emailOk: string -> bool) returns (longer: Schedule)
    requires t in State(s, db, emailOk).txs && State(s, db, emailOk).txs[t] == Loaded(c, row)
    requires c.UpdateUser? && c.email == None && WellFormedUser(Edited(row, c), emailOk)
    requires c.id in State(s, db, emailOk).db.users
    ensures var w := State(s, db, emailOk);
            var after := w.db.users[c.id := Updated(w.db.users[c.id], row, c)];
            State(longer, db, emailOk) == World(w.db.(users := after), w.txs[t := Returned])
    ensures forall u :: CallOf(longer, u) == CallOf(s, u)
  {
    var w := State(s, db, emailOk);
    var write := PatchUser(c.id, Diff(row, Edited(row, c)), c.now);
    var decided := Then(s, Proceed(t));
    longer := Then(decided, Proceed(t));
    PatchUpdates(w.db.users[c.id], row, c);
    assert State(decided, db, emailOk) == World(w.db, w.txs[t := Flushed(write)]);
    assert w.txs[t := Flushed(write)][t := Returned] == w.txs[t := Returned];
    assert Apply(w.db, write) == Done(w.db.(users := w.db.users[c.id := Updated(w.db.users[c.id], row, c)])) by {
      assert w.db.users[c.id := w.db.users[c.id]] == w.db.users;
    }
  }

  /** Two renames of a user: the first keeps the name it read, and returns over the other's commit. */
  lemma UpdateCanBeInvisible(db: Db, id: Id, other: string, now: int, emailOk: string -> bool) returns (s: Schedule)
    requires Valid(db, emailOk) && id in db.users && 1 <= |other| <= 120 && other != db.users[id].name
    ensures var w := State(s, db, emailOk);
            && CallOf(s, 0) == Some(UpdateUser(id, Some(db.users[id].name), None, None, now))
            && w.txs == map[0 := Returned, 1 := Returned]
            && id in w.db.users && w.db.users[id].name == other
  {
    var u := db.users[id];
    var keep := UpdateUser(id, Some(u.name), None, None, now);
    var change := UpdateUser(id, Some(other), None, None, now);
    var none: map<nat, Tx> := map[];
    assert State(Start, db, emailOk) == World(db, none);
    s := Loads(Start, 0, keep, db, emailOk);
    s := Loads(s, 1, change, db, emailOk);
    s := Writes(s, 1, change, u, db, emailOk);
    s := Writes(s, 0, keep, u, db, emailOk);
  }

  /** The same for two renames of a session by its owner. */
  lemma RenameCanBeInvisible(db: Db, id: Id, other: string, now: int, emailOk: string -> bool) returns (s: Schedule)
    requires Valid(db, emailOk) && id in db.sessions && |other| <= 255 && other != db.sessions[id].title
    ensures var w, row := State(s, db, emailOk), db.sessions[id];
            && CallOf(s, 0) == Some(RenameSession(id, row.userId, row.title, now))
            && w.txs == map[0 := Returned, 1 := Returned]
            && id in w.db.sessions && w.db.sessions[id].title == other
  {
    var row := db.sessions[id];
    var keep := RenameSession(id, row.userId, row.title, now);
    var change := RenameSession(id, row.userId, other, now);
    var none: map<nat, Tx> := map[];
    assert State(Start, db, emailOk) == World(db, none);
    s := Decides(Start, 0, keep, None, db, emailOk);
    s := Decides(s, 1, change, Some(other), db, emailOk);
    s := Commits(s, 1, db.(sessions := db.sessions[id := Renamed(row, Some(other), now)]), db, emailOk);
    s := Commits(s, 0, State(s, db, emailOk).db, db, emailOk);
  }

  lemma Decides(s: Schedule, t: nat, c: Call, title: Option<string>, db: Db, emailOk: string -> bool)
    returns (longer: Schedule)
    requires c.RenameSession? && t !in State(s, db, emailOk).txs && |c.title| <= 255
    requires OwnedSession(State(s, db, emailOk).db, c.id, c.owner)
    requires title == Changed(State(s, db, emailOk).db.sessions[c.id].title, c.title)
    ensures var w := State(s, db, emailOk);
            State(longer, db, emailOk) == World(w.db, w.txs[t := Flushed(PatchSession(c.id, title, c.now))])
    ensures CallOf(longer, t) == Some(c)
    ensures forall u :: u != t ==> CallOf(longer, u) == CallOf(s, u)
  {
    EveryTransactionTracks(s, t, db, emailOk);
    var w, begun := State(s, db, emailOk), Then(s, Begin(t, c));
    longer := Then(begun, Proceed(t));
    assert State(begun, db, emailOk) == World(w.db, w.txs[t := Begun(c)]);
    var flushed := Flushed(PatchSession(c.id, title, c.now));
    assert w.txs[t := Begun(c)][t := flushed] == w.txs[t := flushed];
  }

  lemma Commits(s: Schedule, t: nat, after: Db, db: Db, emailOk: string -> bool) returns (longer: Schedule)
    requires var w := State(s, db, emailOk);
             t in w.txs && w.txs[t].Flushed? && Apply(w.db, w.txs[t].write) == Done(after)
    ensures State(longer, db, emailOk) == World(after, State(s, db, emailOk).txs[t := Returned])
    ensures forall u :: CallOf(longer, u) == CallOf(s, u)
  {
    longer := Then(s, Proceed(t));
  }

  // ---- Only owners change sessions ------------------------------------------------------------------

  /** Ids of the sessions that some call was asked to create. */
  function Asked(s: Schedule): set<Id> {
    match s
    case Start => {}
    case Then(e, ev) =>
      Asked(e) + if ev.Begin? && ev.call.CreateSession? then {ev.call.session.id} else {}
  }

  /** Every new session gets an id of its own. */
  ghost predicate FreshSessions(s: Schedule, db: Db) {
    match s
    case Start => true
    case Then(e, ev) =>
      && FreshSessions(e, db)
      && (ev.Begin? && ev.call.CreateSession? ==> ev.call.session.id !in Asked(e) && ev.call.session.id !in db.sessions)
  }

  /** The session a transaction may still insert. */
  function Pending(tx: Tx): Option<Id> {
    match tx
    case Begun(CreateSession(x)) => Some(x.id)
    case Flushed(InsertSession(x)) => Some(x.id)
    case _ => None
  }

  /** The session a flushed write renames or deletes. */
  function Touched(tx: Tx): Option<Id> {
    match tx
    case Flushed(PatchSession(id, _, _)) => Some(id)
    case Flushed(RemoveSession(id)) => Some(id)
    case _ => None
  }

  function OwnerOf(c: Call): Option<Id> {
    match c
    case RenameSession(_, owner, _, _) => Some(owner)
    case DeleteSession(_, owner) => Some(owner)
    case _ => None
  }

  ghost predicate PendingIsNew(s: Schedule, db: Db, emailOk: string -> bool) {
    var w := State(s, db, emailOk);
    && (forall id :: id in w.db.sessions ==> id in db.sessions || id in Asked(s))
    && (forall t :: t in w.txs && Pending(w.txs[t]).Some? ==>
          Pending(w.txs[t]).value in Asked(s) && Pending(w.txs[t]).value !in w.db.sessions)
    && forall t, u :: t in w.txs && u in w.txs && t != u && Pending(w.txs[t]).Some? ==>
         Pending(w.txs[t]) != Pending(w.txs[u])
  }

  lemma PendingOnBegin(e: Schedule, ev: Event, db: Db, emailOk: string -> bool)
    requires PendingIsNew(e, db, emailOk) && FreshSessions(Then(e, ev), db) && ev.Begin?
    ensures PendingIsNew(Then(e, ev), db, emailOk)
  {
  }

  lemma PendingOnProceed(e: Schedule, ev: Event, db: Db, emailOk: string -> bool)
    requires PendingIsNew(e, db, emailOk) && !ev.Begin?
    ensures PendingIsNew(Then(e, ev), db, emailOk)
  {
    var w, w' := State(e, db, emailOk), State(Then(e, ev), db, emailOk);
    assert forall t :: t in w'.txs && Pending(w'.txs[t]).Some? ==>
      t in w.txs && Pending(w'.txs[t]) == Pending(w.txs[t]);
    assert forall id :: id in w'.db.sessions ==>
      id in w.db.sessions || (ev.tx in w.txs && Pending(w.txs[ev.tx]) == Some(id) && Pending(w'.txs[ev.tx]) == None);
  }

  lemma {:induction false} PendingStaysNew(s: Schedule, db: Db, emailOk: string -> bool)
    requires FreshSessions(s, db)
    ensures PendingIsNew(s, db, emailOk)
  {
    match s
    case Start =>
    case Then(e, ev) =>
      PendingStaysNew(e, db, emailOk);
      if ev.Begin? {
        PendingOnBegin(e, ev, db, emailOk);
      } else {
        PendingOnProceed(e, ev, db, emailOk);
      }
  }

  /** A session about to be renamed or deleted belongs to the caller, and cannot come back as another's. */
  ghost predicate TouchedIsOwned(s: Schedule, t: nat, db: Db, emailOk: string -> bool) {
    var w := State(s, db, emailOk);
    t in w.txs && Touched(w.txs[t]).Some? ==>
      var id := Touched(w.txs[t]).value;
      && CallOf(s, t).Some? && OwnerOf(CallOf(s, t).value).Some?
      && (id in db.sessions || id in Asked(s))
      && (id in w.db.sessions ==> w.db.sessions[id].userId == OwnerOf(CallOf(s, t).value).value)
      && forall u :: u in w.txs ==> Pending(w.txs[u]) != Some(id)
  }

  lemma {:induction false} TouchedStaysOwned(s: Schedule, t: nat, db: Db, emailOk: string -> bool)
    requires FreshSessions(s, db)
    ensures TouchedIsOwned(s, t, db, emailOk)
  {
    match s
    case Start =>
    case Then(e, ev) =>
      TouchedStaysOwned(e, t, db, emailOk);
      EveryTransactionTracks(e, t, db, emailOk);
      PendingStaysNew(e, db, emailOk);
      TouchedOn(e, ev, t, db, emailOk);
  }

  /** The round trip that decides on the write has just seen the session and its owner. */
  lemma TouchedNow(e: Schedule, t: nat, db: Db, emailOk: string -> bool)
    requires PendingIsNew(e, db, emailOk) && Tracks(e, t, db, emailOk)
    requires t in State(e, db, emailOk).txs && State(e, db, emailOk).txs[t].Begun?
    ensures TouchedIsOwned(Then(e, Proceed(t)), t, db, emailOk)
  {
  }

  lemma TouchedLater(e: Schedule, ev: Event, t: nat, db: Db, emailOk: string -> bool)
    requires FreshSessions(Then(e, ev), db) && PendingIsNew(e, db, emailOk)
    requires TouchedIsOwned(e, t, db, emailOk)
    requires var w := State(e, db, emailOk);
             t in w.txs && Touched(w.txs[t]).Some?
    ensures TouchedIsOwned(Then(e, ev), t, db, emailOk)
  {
  }

  lemma TouchedOn(e: Schedule, ev: Event, t: nat, db: Db, emailOk: string -> bool)
    requires FreshSessions(Then(e, ev), db) && PendingIsNew(e, db, emailOk)
    requires TouchedIsOwned(e, t, db, emailOk) && Tracks(e, t, db, emailOk)
    ensures TouchedIsOwned(Then(e, ev), t, db, emailOk)
  {
    var w, w' := State(e, db, emailOk), State(Then(e, ev), db, emailOk);
    if t in w.txs && Touched(w.txs[t]).Some? {
      TouchedLater(e, ev, t, db, emailOk);
    } else if t in w.txs && w.txs[t].Begun? && ev == Proceed(t) {
      TouchedNow(e, t, db, emailOk);
    } else {
      assert t in w'.txs ==> Touched(w'.txs[t]) == None;
    }
  }

  /** With fresh ids, a session is renamed or deleted only by a call of its owner, in every interleaving. */
  lemma OnlyOwnersChangeSessions(e: Schedule, ev: Event, db: Db, emailOk: string -> bool, id: Id)
    requires FreshSessions(e, db) && id in State(e, db, emailOk).db.sessions
    requires var after := State(Then(e, ev), db, emailOk).db;
             id in after.sessions ==> after.sessions[id] != State(e, db, emailOk).db.sessions[id]
    ensures Returns(e, ev, db, emailOk) && CallOf(e, ev.tx).Some?
    ensures var c, owner := CallOf(e, ev.tx).value, State(e, db, emailOk).db.sessions[id].userId;
            c == DeleteUser(owner) || (OwnerOf(c) == Some(owner) && c.id == id)
  {
    EveryStepIsAnEffect(e, ev, db, emailOk);
    TouchedStaysOwned(e, ev.tx, db, emailOk);
    EveryTransactionTracks(e, ev.tx, db, emailOk);
  }

  // ---- How an undisturbed call ends -----------------------------------------------------------------

  /** A registration returns exactly for a free address, a well-formed row and a new id. */
  lemma RegisterEnds(db: Db, u: User, emailOk: string -> bool)
    requires Valid(db, emailOk)
    ensures var o := Serial(db, Register(u), emailOk).1;
            var free := forall k :: k in db.users ==> db.users[k].email != u.email;
            var formed := 1 <= |u.name| <= 120 && emailOk(u.email);
            && (o == Returned <==> free && formed && u.id !in db.users)
            && (o == Raised(AlreadyExists) <==> !free)
            && (o == Raised(Invalid) <==> free && !formed)
            && (o == Raised(Conflict) <==> free && formed && u.id in db.users)
  {
  }

  /** The row an update asks for. */
  function Requested(row: User, name: Option<string>, email: Option<string>, active: Option<bool>): User {
    User(row.id, if name.Some? then name.value else row.name, if email.Some? then email.value else row.email,
         row.hash, if active.Some? then active.value else row.active, row.createdAt, row.updatedAt)
  }

  /**
   An update finds its row or not; an address other than the row's must not be another user's; and
   the row asked for must be well-formed. The empty address escapes the first check and meets the
   database's.
   */
  lemma UpdateEnds(db: Db, c: Call, emailOk: string -> bool)
    requires Valid(db, emailOk) && c.UpdateUser?
    ensures var o := Serial(db, c, emailOk).1;
            if c.id !in db.users then o == Raised(NotFound)
            else
              var row := db.users[c.id];
              var asked := Requested(row, c.name, c.email, c.active);
              var taken := asked.email != row.email
                           && exists k :: k in db.users && k != c.id && db.users[k].email == asked.email;
              var formed := 1 <= |asked.name| <= 120 && emailOk(asked.email);
              && (o == Returned <==> !taken && formed)
              && (o == Raised(AlreadyExists) <==> taken && asked.email != "")
              && (o == Raised(Invalid) <==> !formed && (taken ==> asked.email == ""))
              && (o == Raised(Conflict) <==> taken && formed && asked.email == "")
  {
    if c.id in db.users {
      RequestedIsEdited(db.users[c.id], c);
      UpdatePatch(db, db.users[c.id], c);
    }
  }

  lemma RequestedIsEdited(row: User, c: Call)
    requires c.UpdateUser?
    ensures Edited(row, c) == Requested(row, c.name, c.email, c.active)
  {
  }

  lemma UpdatePatch(db: Db, row: User, c: Call)
    requires c.UpdateUser? && c.id in db.users && row == db.users[c.id]
    ensures var asked := Edited(row, c);
            Apply(db, PatchUser(c.id, Diff(row, asked), c.now)).Done?
            <==> asked.email == row.email || !EmailTaken(db, asked.email, c.id)
  {
  }

  /** A deletion returns exactly if the row exists, sessions or not, and is not found otherwise. */
  lemma DeleteUserEnds(db: Db, id: Id, emailOk: string -> bool)
    ensures var o := Serial(db, DeleteUser(id), emailOk).1;
            o == if id in db.users then Returned else Raised(NotFound)
  {
  }

  lemma CreateSessionEnds(db: Db, s: Session, emailOk: string -> bool)
    ensures var o := Serial(db, CreateSession(s), emailOk).1;
            o == if |s.title| > 255 then Raised(Invalid)
                 else if s.id !in db.sessions && s.userId in db.users then Returned
                 else Raised(Conflict)
  {
  }

  /** Another user's session is not found. */
  lemma RenameSessionEnds(db: Db, id: Id, owner: Id, title: string, now: int, emailOk: string -> bool)
    ensures var o := Serial(db, RenameSession(id, owner, title, now), emailOk).1;
            o == if id !in db.sessions || db.sessions[id].userId != owner then Raised(NotFound)
                 else if |title| > 255 then Raised(Invalid)
                 else Returned
  {
  }

  lemma DeleteSessionEnds(db: Db, id: Id, owner: Id, emailOk: string -> bool)
    ensures var o := Serial(db, DeleteSession(id, owner), emailOk).1;
            o == if id in db.sessions && db.sessions[id].userId == owner then Returned else Raised(NotFound)
  {
  }

  /** One that returns has its effect on the tables it read, and one that raises has none. */
  lemma SerialHasEffect(db: Db, c: Call, emailOk: string -> bool)
    ensures var (after, o) := Serial(db, c, emailOk);
            && (o == Returned || o.Raised?)
            && (o == Returned ==> Effect(c, db, db, after))
            && (o.Raised? ==> after == db)
  {
    var first := Decide(db, Begun(c), emailOk);
    var tx := if first.Loaded? then Decide(db, first, emailOk) else first;
    DecideFollows(c, None, Begun(c), db, emailOk);
    if first.Loaded? {
      DecideFollows(c, Some(db), first, db, emailOk);
    }
    if tx.Flushed? && Apply(db, tx.write).Done? {
      WriteHasEffect(c, db, tx.write, db);
    }
  }

  /** An aborted transaction raises and changes nothing; one that has ended stays as it is. */
  lemma AbortRaises(w: World, t: nat, emailOk: string -> bool)
    requires t in w.txs
    ensures Step(w, Abort(t), emailOk)
            == if Active(w.txs[t]) then w.(txs := w.txs[t := Raised(Aborted)]) else w
    ensures !Active(w.txs[t]) ==> Step(w, Proceed(t), emailOk) == w
    ensures forall c :: Step(w, Begin(t, c), emailOk) == w
  {
  }
}
