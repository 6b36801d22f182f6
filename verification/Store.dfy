/** The two tables, what a single write does to them, and the constraints the database enforces. */
module Store {

  import opened Wrappers

  type Id = nat

  datatype User = User(id: Id, name: string, email: string, hash: string, active: bool, createdAt: int, updatedAt: int)

  datatype Session = Session(id: Id, userId: Id, title: string, createdAt: int, updatedAt: int)

  datatype Db = Db(users: map<Id, User>, sessions: map<Id, Session>)

  /** The domain models' own field constraints; what counts as an e-mail address is a parameter. */
  predicate WellFormedUser(u: User, emailOk: string -> bool) {
    1 <= |u.name| <= 120 && emailOk(u.email)
  }

  predicate WellFormedSession(s: Session) {
    |s.title| <= 255
  }

  /** Rows are keyed by id and well-formed, e-mails are unique, every session has its user. */
  ghost predicate Valid(db: Db, emailOk: string -> bool) {
    && (forall id :: id in db.users ==> db.users[id].id == id && WellFormedUser(db.users[id], emailOk))
    && (forall id :: id in db.sessions ==> db.sessions[id].id == id && WellFormedSession(db.sessions[id]))
    && (forall a, b :: a in db.users && b in db.users && db.users[a].email == db.users[b].email ==> a == b)
    && (forall id :: id in db.sessions ==> db.sessions[id].userId in db.users)
  }

  /** The attributes an update really changes; unchanged ones are not written. */
  datatype Patch = Patch(name: Option<string>, email: Option<string>, active: Option<bool>)

  const NO_PATCH := Patch(None, None, None)

  datatype Write =
    | InsertUser(user: User)
    | PatchUser(id: Id, patch: Patch, now: int)
    | RemoveUser(id: Id)
    | InsertSession(session: Session)
    | PatchSession(id: Id, title: Option<string>, now: int)
    | RemoveSession(id: Id)

  /** A write succeeds, or violates a constraint or misses its row. */
  datatype Applied = Done(db: Db) | Violated

  predicate EmailTaken(db: Db, email: string, except: Id) {
    exists id :: id in db.users && id != except && db.users[id].email == email
  }

  function Patched(u: User, p: Patch, now: int): User {
    if p == NO_PATCH then u
    else u.(name := p.name.Or(u.name), email := p.email.Or(u.email), active := p.active.Or(u.active), updatedAt := now)
  }

  function Renamed(s: Session, title: Option<string>, now: int): Session {
    if title.None? then s else s.(title := title.value, updatedAt := now)
  }

  function WithoutSessionsOf(sessions: map<Id, Session>, user: Id): map<Id, Session> {
    map id | id in sessions && sessions[id].userId != user :: sessions[id]
  }

  function Apply(db: Db, w: Write): Applied {
    match w
    case InsertUser(u) =>
      if u.id in db.users || EmailTaken(db, u.email, u.id) then Violated
      else Done(db.(users := db.users[u.id := u]))
    case PatchUser(id, p, now) =>
      if p == NO_PATCH then Done(db)
      else if id !in db.users || (p.email.Some? && EmailTaken(db, p.email.value, id)) then Violated
      else Done(db.(users := db.users[id := Patched(db.users[id], p, now)]))
    case RemoveUser(id) =>
      Done(Db(db.users - {id}, WithoutSessionsOf(db.sessions, id)))
    case InsertSession(s) =>
      if s.id in db.sessions || s.userId !in db.users then Violated
      else Done(db.(sessions := db.sessions[s.id := s]))
    case PatchSession(id, title, now) =>
      if title.None? then Done(db)
      else if id !in db.sessions then Violated
      else Done(db.(sessions := db.sessions[id := Renamed(db.sessions[id], title, now)]))
    case RemoveSession(id) =>
      Done(db.(sessions := db.sessions - {id}))
  }

  /** The values a write brings are well-formed. */
  predicate WellFormedWrite(w: Write, emailOk: string -> bool) {
    match w
    case InsertUser(u) => WellFormedUser(u, emailOk)
    case PatchUser(_, p, _) =>
      (p.name.Some? ==> 1 <= |p.name.value| <= 120) && (p.email.Some? ==> emailOk(p.email.value))
    case InsertSession(s) => WellFormedSession(s)
    case PatchSession(_, title, _) => title.Some? ==> |title.value| <= 255
    case _ => true
  }

  lemma UserWriteKeepsValid(db: Db, w: Write, emailOk: string -> bool)
    requires w.InsertUser? || w.PatchUser?
    requires Valid(db, emailOk) && WellFormedWrite(w, emailOk) && Apply(db, w).Done?
    ensures Valid(Apply(db, w).db, emailOk)
  {
    var after := Apply(db, w).db;
    var id := if w.InsertUser? then w.user.id else w.id;
    assert forall k :: k in after.users && k != id ==> k in db.users && after.users[k] == db.users[k];
    assert id in after.users ==> after.users[id].id == id && WellFormedUser(after.users[id], emailOk);
  }

  lemma SessionWriteKeepsValid(db: Db, w: Write, emailOk: string -> bool)
    requires w.InsertSession? || w.PatchSession? || w.RemoveSession?
    requires Valid(db, emailOk) && WellFormedWrite(w, emailOk) && Apply(db, w).Done?
    ensures Valid(Apply(db, w).db, emailOk)
  {
  }

  /** A write that succeeds keeps the constraints. */
  lemma ApplyKeepsValid(db: Db, w: Write, emailOk: string -> bool)
    requires Valid(db, emailOk) && WellFormedWrite(w, emailOk) && Apply(db, w).Done?
    ensures Valid(Apply(db, w).db, emailOk)
  {
    if w.InsertUser? || w.PatchUser? {
      UserWriteKeepsValid(db, w, emailOk);
    } else if !w.RemoveUser? {
      SessionWriteKeepsValid(db, w, emailOk);
    }
  }

  /** Deleting a user removes that user's row and sessions, and nothing else. */
  lemma RemoveUserRemovesExactly(db: Db, id: Id, emailOk: string -> bool)
    requires Valid(db, emailOk)
    ensures var after := Apply(db, RemoveUser(id)).db;
            && (forall u :: u in after.users <==> u in db.users && u != id)
            && (forall u :: u in after.users ==> after.users[u] == db.users[u])
            && (forall s :: s in after.sessions <==> s in db.sessions && db.sessions[s].userId != id)
            && (forall s :: s in after.sessions ==> after.sessions[s] == db.sessions[s])
  {
  }

  /** An update touches one row: the patched fields and, if there are any, `updatedAt`. */
  lemma PatchUserTouchesOnly(db: Db, id: Id, p: Patch, now: int)
    requires Apply(db, PatchUser(id, p, now)).Done? && id in db.users
    ensures var after, u := Apply(db, PatchUser(id, p, now)).db, db.users[id];
            && after.sessions == db.sessions && after.users.Keys == db.users.Keys
            && (forall k :: k in db.users && k != id ==> after.users[k] == db.users[k])
            && var v := after.users[id];
               && v.id == u.id && v.hash == u.hash && v.createdAt == u.createdAt
               && v.name == p.name.Or(u.name) && v.email == p.email.Or(u.email) && v.active == p.active.Or(u.active)
               && v.updatedAt == if p == NO_PATCH then u.updatedAt else now
  {
  }

  /** A rename touches one session's title and, if it is another title, its `updatedAt`. */
  lemma PatchSessionTouchesOnly(db: Db, id: Id, title: Option<string>, now: int)
    requires Apply(db, PatchSession(id, title, now)).Done? && id in db.sessions
    ensures var after, s := Apply(db, PatchSession(id, title, now)).db, db.sessions[id];
            && after.users == db.users && after.sessions.Keys == db.sessions.Keys
            && (forall k :: k in db.sessions && k != id ==> after.sessions[k] == db.sessions[k])
            && after.sessions[id]
               == s.(title := title.Or(s.title), updatedAt := if title.None? then s.updatedAt else now)
  {
  }

  predicate Disjoint(p: Patch, q: Patch) {
    && (p.name.None? || q.name.None?) && (p.email.None? || q.email.None?) && (p.active.None? || q.active.None?)
  }

  /** The fields of both patches. */
  function Joined(p: Patch, q: Patch): Patch {
    Patch(if p.name.Some? then p.name else q.name,
          if p.email.Some? then p.email else q.email,
          if p.active.Some? then p.active else q.active)
  }

  /**
   Two updates of different fields of one row do not undo each other: if each could be made,
   both can, one after the other, and the row has the fields of both and the time of the later
   one that changed something.
   */
  lemma PatchesOfDifferentFieldsJoin(db: Db, id: Id, p: Patch, now: int, q: Patch, later: int)
    requires id in db.users && Disjoint(p, q)
    requires Apply(db, PatchUser(id, p, now)).Done? && Apply(db, PatchUser(id, q, later)).Done?
    ensures var first := Apply(db, PatchUser(id, p, now)).db;
            var u, second := db.users[id], Apply(first, PatchUser(id, q, later));
            second == Done(db.(users := db.users[id :=
              Patched(u, Joined(p, q), if q != NO_PATCH then later else now)]))
  {
    var u := db.users[id];
    var first := Apply(db, PatchUser(id, p, now)).db;
    assert db.users[id := u] == db.users;
    assert first.users == db.users[id := Patched(u, p, now)];
    assert q.email.Some? ==> !EmailTaken(first, q.email.value, id);
    assert Patched(Patched(u, p, now), q, later) == Patched(u, Joined(p, q), if q != NO_PATCH then later else now);
    assert first.users[id := Patched(first.users[id], q, later)]
           == db.users[id := Patched(first.users[id], q, later)];
  }

  /** Hence the order of two such updates matters for the row's time only. */
  lemma PatchesOfDifferentFieldsCommute(db: Db, id: Id, p: Patch, q: Patch, now: int)
    requires id in db.users && Disjoint(p, q)
    requires Apply(db, PatchUser(id, p, now)).Done? && Apply(db, PatchUser(id, q, now)).Done?
    ensures Apply(Apply(db, PatchUser(id, p, now)).db, PatchUser(id, q, now))
            == Apply(Apply(db, PatchUser(id, q, now)).db, PatchUser(id, p, now))
  {
    PatchesOfDifferentFieldsJoin(db, id, p, now, q, now);
    PatchesOfDifferentFieldsJoin(db, id, q, now, p, now);
    assert Joined(p, q) == Joined(q, p);
  }
}
