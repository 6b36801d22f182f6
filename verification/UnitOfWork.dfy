/**
 The objects behind a service call: a database, a session on it, the two repositories that
 work on the session's rows, the unit of work that owns them, and the services.
 */
module UnitOfWork {
  import opened Wrappers
  import opened Store
  import T = Transactions

  class Database {
    var db: Db
    const emailOk: string -> bool

    ghost predicate Ok()
      reads this
    {
      Valid(db, emailOk)
    }

    constructor (emailOk: string -> bool)
      ensures Ok() && db == Db(map[], map[]) && this.emailOk == emailOk
    {
      db := Db(map[], map[]);
      this.emailOk := emailOk;
    }
  }

  /** An open session: its own view of the tables, written back by a commit. */
  class DbSession {
    const database: Database
    var view: Db

    ghost predicate Ok()
      reads this, database
    {
      database.Ok() && Valid(view, database.emailOk)
    }

    constructor (database: Database)
      requires database.Ok()
      ensures Ok() && this.database == database && view == database.db
    {
      this.database := database;
      view := database.db;
    }

    /** `flush`: the write reaches the tables of this session, or an integrity error is raised. */
    method Flush(w: Write) returns (ok: bool)
      requires Ok() && WellFormedWrite(w, database.emailOk)
      modifies this`view
      ensures Ok()
      ensures ok <==> Apply(old(view), w).Done?
      ensures view == if ok then Apply(old(view), w).db else old(view)
    {
      match Apply(view, w)
      case Done(db) =>
        ApplyKeepsValid(view, w, database.emailOk);
        view := db;
        ok := true;
      case Violated =>
        ok := false;
    }

    method Commit()
      requires Ok()
      modifies database`db
      ensures Ok() && database.db == view
    {
      database.db := view;
    }

    method Rollback()
      requires Ok()
      modifies this`view
      ensures Ok() && view == database.db
    {
      view := database.db;
    }
  }

  /** A row, no row, or an exception. */
  datatype Answer<R> = Row(row: R) | Nothing | Failure(error: T.Error)

  class UserRepository {
    const session: DbSession

    constructor (session: DbSession)
      ensures this.session == session
    {
      this.session := session;
    }

    method GetById(id: Id) returns (r: Option<User>)
      ensures r == if id in session.view.users then Some(session.view.users[id]) else None
    {
      r := if id in session.view.users then Some(session.view.users[id]) else None;
    }

    method GetByEmail(email: string) returns (r: Option<User>)
      requires session.Ok()
      ensures r.Some? ==> r.value.id in session.view.users && session.view.users[r.value.id] == r.value
                          && r.value.email == email
      ensures r.None? ==> forall id :: id in session.view.users ==> session.view.users[id].email != email
    {
      var todo := session.view.users.Keys;
      while todo != {}
        invariant todo <= session.view.users.Keys
        invariant forall id :: id in session.view.users && id !in todo ==> session.view.users[id].email != email
        decreases |todo|
      {
        var id :| id in todo;
        if session.view.users[id].email == email {
          return Some(session.view.users[id]);
        }
        todo := todo - {id};
      }
      r := None;
    }

    method Add(u: User) returns (ok: bool)
      requires session.Ok() && WellFormedUser(u, session.database.emailOk)
      modifies session`view
      ensures session.Ok()
      ensures ok <==> Apply(old(session.view), InsertUser(u)).Done?
      ensures session.view == if ok then Apply(old(session.view), InsertUser(u)).db else old(session.view)
    {
      ok := session.Flush(InsertUser(u));
    }

    /** Only attributes that differ from the row are written; the row read back is validated. */
    method Update(u: User, now: int) returns (r: Answer<User>)
      requires session.Ok()
      modifies session`view
      ensures session.Ok()
      ensures u.id !in old(session.view).users ==> r == Failure(T.MissingRow) && session.view == old(session.view)
      ensures u.id in old(session.view).users ==>
              var before := old(session.view);
              var w := PatchUser(u.id, T.Diff(before.users[u.id], u), now);
              if !WellFormedUser(u, session.database.emailOk) then
                r == Failure(T.Invalid) && session.view == before
              else if Apply(before, w).Violated? then
                r == Failure(T.Conflict) && session.view == before
              else
                session.view == Apply(before, w).db && r == Row(session.view.users[u.id])
    {
      if u.id !in session.view.users {
        return Failure(T.MissingRow);
      }
      if !WellFormedUser(u, session.database.emailOk) {
        return Failure(T.Invalid);
      }
      var ok := session.Flush(PatchUser(u.id, T.Diff(session.view.users[u.id], u), now));
      r := if ok then Row(session.view.users[u.id]) else Failure(T.Conflict);
    }

    method Delete(id: Id)
      requires session.Ok()
      modifies session`view
      ensures session.Ok()
      ensures id in old(session.view).users ==> session.view == Apply(old(session.view), RemoveUser(id)).db
      ensures id !in old(session.view).users ==> session.view == old(session.view)
    {
      if id in session.view.users {
        var _ := session.Flush(RemoveUser(id));
      }
    }
  }

  /** Rows in descending order of their last change, none twice. */
  ghost predicate LatestFirst(rows: seq<Session>) {
    forall i, j :: 0 <= i < j < |rows| ==> rows[i].updatedAt >= rows[j].updatedAt && rows[i].id != rows[j].id
  }

  /** The rows of one user, but for those whose ids are still to come. */
  ghost predicate Listed(rows: seq<Session>, todo: set<Id>, user: Id, sessions: map<Id, Session>) {
    && (forall s :: s in rows ==> s.id in sessions && sessions[s.id] == s && s.userId == user && s.id !in todo)
    && forall id :: id in sessions && sessions[id].userId == user ==> id in todo || sessions[id] in rows
  }

  /** No later change than `at` among these rows. */
  predicate NoneAfter(sessions: map<Id, Session>, ids: set<Id>, at: int)
    requires ids <= sessions.Keys
  {
    forall id :: id in ids ==> sessions[id].updatedAt <= at
  }

  lemma {:induction false} LatestExists(sessions: map<Id, Session>, ids: set<Id>)
    requires ids != {} && ids <= sessions.Keys
    ensures exists id :: id in ids && NoneAfter(sessions, ids, sessions[id].updatedAt)
  {
    var one :| one in ids;
    var others := ids - {one};
    if others == {} {
      assert ids == {one};
      assert NoneAfter(sessions, ids, sessions[one].updatedAt);
    } else {
      LatestExists(sessions, others);
      var best :| best in others && NoneAfter(sessions, others, sessions[best].updatedAt);
      var id := if sessions[one].updatedAt >= sessions[best].updatedAt then one else best;
      assert ids == others + {one};
      assert id in ids && NoneAfter(sessions, ids, sessions[id].updatedAt);
    }
  }

  /** The latest of the remaining rows comes next. */
  lemma ListNext(rows: seq<Session>, todo: set<Id>, user: Id, sessions: map<Id, Session>, id: Id)
    requires Listed(rows, todo, user, sessions) && LatestFirst(rows) && todo <= sessions.Keys
    requires id in todo && sessions[id].id == id && sessions[id].userId == user
    requires forall s :: s in rows ==> NoneAfter(sessions, todo, s.updatedAt)
    requires NoneAfter(sessions, todo, sessions[id].updatedAt)
    ensures Listed(rows + [sessions[id]], todo - {id}, user, sessions)
    ensures LatestFirst(rows + [sessions[id]])
    ensures forall s :: s in rows + [sessions[id]] ==> NoneAfter(sessions, todo - {id}, s.updatedAt)
  {
    forall i | 0 <= i < |rows|
      ensures rows[i].updatedAt >= sessions[id].updatedAt && rows[i].id != id
    {
      assert rows[i] in rows;
    }
    forall k | k in sessions && sessions[k].userId == user && k !in todo - {id}
      ensures sessions[k] in rows + [sessions[id]]
    {
      assert k == id || sessions[k] in rows;
    }
  }

  class SessionRepository {
    const session: DbSession

    constructor (session: DbSession)
      ensures this.session == session
    {
      this.session := session;
    }

    method GetById(id: Id) returns (r: Option<Session>)
      ensures r == if id in session.view.sessions then Some(session.view.sessions[id]) else None
    {
      r := if id in session.view.sessions then Some(session.view.sessions[id]) else None;
    }

    /** The rows of one user, the latest first; rows of one instant may come in any order. */
    method ListByUser(user: Id) returns (rows: seq<Session>)
      requires session.Ok()
      ensures LatestFirst(rows) && Listed(rows, {}, user, session.view.sessions)
    {
      var sessions := session.view.sessions;
      var todo := set id | id in sessions && sessions[id].userId == user;
      rows := [];
      while todo != {}
        invariant todo <= sessions.Keys && forall id :: id in todo ==> sessions[id].userId == user
        invariant Listed(rows, todo, user, sessions) && LatestFirst(rows)
        invariant forall s :: s in rows ==> NoneAfter(sessions, todo, s.updatedAt)
        decreases |todo|
      {
        LatestExists(sessions, todo);
        var id :| id in todo && NoneAfter(sessions, todo, sessions[id].updatedAt);
        ListNext(rows, todo, user, sessions, id);
        rows := rows + [sessions[id]];
        todo := todo - {id};
      }
    }

    method Add(s: Session) returns (ok: bool)
      requires session.Ok() && WellFormedSession(s)
      modifies session`view
      ensures session.Ok()
      ensures ok <==> Apply(old(session.view), InsertSession(s)).Done?
      ensures session.view == if ok then Apply(old(session.view), InsertSession(s)).db else old(session.view)
    {
      ok := session.Flush(InsertSession(s));
    }

    method Update(s: Session, now: int) returns (r: Answer<Session>)
      requires session.Ok()
      modifies session`view
      ensures session.Ok()
      ensures s.id !in old(session.view).sessions ==> r == Failure(T.MissingRow) && session.view == old(session.view)
      ensures s.id in old(session.view).sessions ==>
              var before := old(session.view);
              var w := PatchSession(s.id, T.Changed(before.sessions[s.id].title, s.title), now);
              if !WellFormedSession(s) then r == Failure(T.Invalid) && session.view == before
              else session.view == Apply(before, w).db && r == Row(session.view.sessions[s.id])
    {
      if s.id !in session.view.sessions {
        return Failure(T.MissingRow);
      }
      if !WellFormedSession(s) {
        return Failure(T.Invalid);
      }
      var ok := session.Flush(PatchSession(s.id, T.Changed(session.view.sessions[s.id].title, s.title), now));
      r := Row(session.view.sessions[s.id]);
    }

    method Delete(id: Id)
      requires session.Ok()
      modifies session`view
      ensures session.Ok()
      ensures id in old(session.view).sessions ==> session.view == Apply(old(session.view), RemoveSession(id)).db
      ensures id !in old(session.view).sessions ==> session.view == old(session.view)
    {
      if id in session.view.sessions {
        var _ := session.Flush(RemoveSession(id));
      }
    }
  }

  class SqlAlchemyUnitOfWork {
    const database: Database
    var session: DbSession
    var users: UserRepository
    var sessions: SessionRepository

    ghost predicate Entered()
      reads this, session, database
    {
      && session.database == database && session.Ok()
      && users.session == session && sessions.session == session
    }

    constructor (database: Database)
      requires database.Ok()
      ensures this.database == database && Entered() && session.view == database.db
    {
      this.database := database;
      var s := new DbSession(database);
      session := s;
      users := new UserRepository(s);
      sessions := new SessionRepository(s);
    }

    /** `__aenter__`: a new session that sees the committed tables. */
    method Enter()
      requires database.Ok()
      modifies this
      ensures Entered() && fresh(session) && session.view == database.db
    {
      var s := new DbSession(database);
      session := s;
      users := new UserRepository(s);
      sessions := new SessionRepository(s);
    }

    /** `__aexit__`: a block left by an exception is rolled back. */
    method Exit(failed: bool)
      requires Entered()
      modifies session`view
      ensures Entered()
      ensures session.view == if failed then database.db else old(session.view)
    {
      if failed {
        session.Rollback();
      }
    }

    method Commit()
      requires Entered()
      modifies database`db
      ensures Entered() && database.db == session.view
    {
      session.Commit();
    }
  }

  // ---- The services -------------------------------------------------------------------------------------

  class UserService {
    const uow: SqlAlchemyUnitOfWork

    constructor (uow: SqlAlchemyUnitOfWork)
      ensures this.uow == uow
    {
      this.uow := uow;
    }

    method Register(u: User) returns (r: Answer<User>)
      requires uow.database.Ok()
      modifies uow, uow.database`db
      ensures uow.database.Ok()
      ensures (uow.database.db, if r.Failure? then T.Raised(r.error) else T.Returned)
              == T.Serial(old(uow.database.db), T.Register(u), uow.database.emailOk)
      ensures !r.Failure? ==> r == Row(u) && u.id in uow.database.db.users && uow.database.db.users[u.id] == u
    {
      uow.Enter();
      var existing := uow.users.GetByEmail(u.email);
      if existing.Some? {
        uow.Exit(true);
        return Failure(T.AlreadyExists);
      }
      if !WellFormedUser(u, uow.database.emailOk) {
        uow.Exit(true);
        return Failure(T.Invalid);
      }
      var ok := uow.users.Add(u);
      if !ok {
        uow.Exit(true);
        return Failure(T.Conflict);
      }
      uow.Commit();
      uow.Exit(false);
      r := Row(u);
    }

    method GetUser(id: Id) returns (r: Answer<User>)
      requires uow.database.Ok()
      modifies uow
      ensures uow.database.db == old(uow.database.db) && uow.database.Ok()
      ensures r == if id in uow.database.db.users then Row(uow.database.db.users[id]) else Failure(T.NotFound)
    {
      uow.Enter();
      var user := uow.users.GetById(id);
      if user.None? {
        uow.Exit(true);
        return Failure(T.NotFound);
      }
      uow.Exit(false);
      r := Row(user.value);
    }

    method UpdateUser(id: Id, name: Option<string>, email: Option<string>, active: Option<bool>, now: int)
      returns (r: Answer<User>)
      requires uow.database.Ok()
      modifies uow, uow.database`db
      ensures uow.database.Ok()
      ensures (uow.database.db, if r.Failure? then T.Raised(r.error) else T.Returned)
              == T.Serial(old(uow.database.db), T.UpdateUser(id, name, email, active, now), uow.database.emailOk)
      ensures !r.Failure? ==> id in uow.database.db.users && r == Row(uow.database.db.users[id])
    {
      ghost var c := T.UpdateUser(id, name, email, active, now);
      T.SerialUpdate(uow.database.db, c, uow.database.emailOk);
      uow.Enter();
      var user := uow.users.GetById(id);
      if user.None? {
        uow.Exit(true);
        return Failure(T.NotFound);
      }
      if email.Some? && email.value != "" && email.value != user.value.email {
        var existing := uow.users.GetByEmail(email.value);
        if existing.Some? && existing.value.id != id {
          uow.Exit(true);
          return Failure(T.AlreadyExists);
        }
      }
      var updated := T.Edited(user.value, T.UpdateUser(id, name, email, active, now));
      r := uow.users.Update(updated, now);
      if r.Failure? {
        uow.Exit(true);
        return;
      }
      uow.Commit();
      uow.Exit(false);
    }

    method DeleteUser(id: Id) returns (r: Answer<User>)
      requires uow.database.Ok()
      modifies uow, uow.database`db
      ensures uow.database.Ok()
      ensures (uow.database.db, if r.Failure? then T.Raised(r.error) else T.Returned)
              == T.Serial(old(uow.database.db), T.DeleteUser(id), uow.database.emailOk)
    {
      uow.Enter();
      var user := uow.users.GetById(id);
      if user.None? {
        uow.Exit(true);
        return Failure(T.NotFound);
      }
      uow.users.Delete(id);
      uow.Commit();
      uow.Exit(false);
      r := Nothing;
    }
  }

  class SessionService {
    const uow: SqlAlchemyUnitOfWork

    constructor (uow: SqlAlchemyUnitOfWork)
      ensures this.uow == uow
    {
      this.uow := uow;
    }

    method CreateSession(s: Session) returns (r: Answer<Session>)
      requires uow.database.Ok()
      modifies uow, uow.database`db
      ensures uow.database.Ok()
      ensures (uow.database.db, if r.Failure? then T.Raised(r.error) else T.Returned)
              == T.Serial(old(uow.database.db), T.CreateSession(s), uow.database.emailOk)
      ensures !r.Failure? ==> r == Row(s) && s.id in uow.database.db.sessions && uow.database.db.sessions[s.id] == s
    {
      uow.Enter();
      if !WellFormedSession(s) {
        uow.Exit(true);
        return Failure(T.Invalid);
      }
      var ok := uow.sessions.Add(s);
      if !ok {
        uow.Exit(true);
        return Failure(T.Conflict);
      }
      uow.Commit();
      uow.Exit(false);
      r := Row(s);
    }

    method ListSessions(user: Id) returns (rows: seq<Session>)
      requires uow.database.Ok()
      modifies uow
      ensures uow.database.db == old(uow.database.db) && uow.database.Ok()
      ensures LatestFirst(rows) && Listed(rows, {}, user, uow.database.db.sessions)
    {
      uow.Enter();
      rows := uow.sessions.ListByUser(user);
      uow.Exit(false);
    }

    /** Another user's session is as absent as one that does not exist. */
    method GetSession(id: Id, owner: Id) returns (r: Answer<Session>)
      requires uow.database.Ok()
      modifies uow
      ensures uow.database.db == old(uow.database.db) && uow.database.Ok()
      ensures r == if T.OwnedSession(uow.database.db, id, owner) then Row(uow.database.db.sessions[id])
                   else Failure(T.NotFound)
    {
      uow.Enter();
      var found := uow.sessions.GetById(id);
      if found.None? || found.value.userId != owner {
        uow.Exit(true);
        return Failure(T.NotFound);
      }
      uow.Exit(false);
      r := Row(found.value);
    }

    method RenameSession(id: Id, owner: Id, title: string, now: int) returns (r: Answer<Session>)
      requires uow.database.Ok()
      modifies uow, uow.database`db
      ensures uow.database.Ok()
      ensures (uow.database.db, if r.Failure? then T.Raised(r.error) else T.Returned)
              == T.Serial(old(uow.database.db), T.RenameSession(id, owner, title, now), uow.database.emailOk)
      ensures !r.Failure? ==> id in uow.database.db.sessions && r == Row(uow.database.db.sessions[id])
    {
      T.SerialRename(uow.database.db, T.RenameSession(id, owner, title, now), uow.database.emailOk);
      uow.Enter();
      var found := uow.sessions.GetById(id);
      if found.None? || found.value.userId != owner {
        uow.Exit(true);
        return Failure(T.NotFound);
      }
      r := uow.sessions.Update(found.value.(title := title), now);
      if r.Failure? {
        uow.Exit(true);
        return;
      }
      uow.Commit();
      uow.Exit(false);
    }

    method DeleteSession(id: Id, owner: Id) returns (r: Answer<Session>)
      requires uow.database.Ok()
      modifies uow, uow.database`db
      ensures uow.database.Ok()
      ensures (uow.database.db, if r.Failure? then T.Raised(r.error) else T.Returned)
              == T.Serial(old(uow.database.db), T.DeleteSession(id, owner), uow.database.emailOk)
    {
      uow.Enter();
      var found := uow.sessions.GetById(id);
      if found.None? || found.value.userId != owner {
        uow.Exit(true);
        return Failure(T.NotFound);
      }
      uow.sessions.Delete(id);
      uow.Commit();
      uow.Exit(false);
      r := Nothing;
    }
  }
}
