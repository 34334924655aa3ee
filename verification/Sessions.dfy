/**
 Sessions over a table whose expiry column is RFC 3339 text. Lookup parses the text and
 compares times; cleanup compares the text itself. The table is keyed by a digest of the token.
 */
module Sessions {
  import opened Wrappers
  import opened Calendar
  import opened Clock
  import opened Rfc3339
  import Text
  import Base64

  const LIFETIME: int := 12 * 3600 * SECOND

  /** Instants whose sessions expire within the calendar. */
  type Start = t: int | 0 <= t < LIMIT - LIFETIME

  function Expiry(at: Start): Instant { at + LIFETIME }

  datatype User = User(id: string, email: string, name: string, passwordHash: string, role: string)

  datatype Row = Row(user: string, expires: string, created: string)

  datatype Db = Db(users: map<string, User>, sessions: map<string, Row>)

  datatype LookupError = NotFound | Backend

  // ---------- the statements, as functions of the two tables ----------

  function SessionRow(user: string, at: Start): Row {
    Row(user, Format(Expiry(at)), Format(at))
  }

  /** User rows are keyed by their id. */
  predicate Keyed(users: map<string, User>) { forall k | k in users :: users[k].id == k }

  function Find(digest: string -> string, db: Db, token: string, now: Instant): Result<User, LookupError> {
    var key := digest(token);
    if key !in db.sessions || db.sessions[key].user !in db.users then Err(NotFound)
    else
      var expires := Parse(db.sessions[key].expires);
      if expires.None? || expires.value <= now then Err(NotFound)
      else Ok(db.users[db.sessions[key].user])
  }

  function DropUser(sessions: map<string, Row>, user: string): map<string, Row> {
    map k | k in sessions && sessions[k].user != user :: sessions[k]
  }

  function Clean(sessions: map<string, Row>, now: Instant): map<string, Row> {
    map k | k in sessions && !Text.LexLess(sessions[k].expires, Format(now)) :: sessions[k]
  }

  function SetPassword(users: map<string, User>, user: string, hash: string): map<string, User> {
    if user in users then users[user := users[user].(passwordHash := hash)] else users
  }

  // ---------- histories ----------

  /** What a committed operation did. Failed statements change nothing and leave no event. */
  datatype Event =
    | Created(token: string, user: string, at: Start)
    | LoggedOut(token: string)
    | SessionsDropped(user: string)
    | PasswordChanged(user: string, hash: string)
    | Cleaned(now: Instant)

  /** The primary key and the foreign key. */
  predicate Accepts(digest: string -> string, db: Db, e: Event) {
    e.Created? ==> digest(e.token) !in db.sessions && e.user in db.users
  }

  function Apply(digest: string -> string, db: Db, e: Event): Db {
    match e
    case Created(token, user, at) => db.(sessions := db.sessions[digest(token) := SessionRow(user, at)])
    case LoggedOut(token) => db.(sessions := db.sessions - {digest(token)})
    case SessionsDropped(user) => db.(sessions := DropUser(db.sessions, user))
    case PasswordChanged(user, hash) => Db(SetPassword(db.users, user, hash), DropUser(db.sessions, user))
    case Cleaned(now) => db.(sessions := Clean(db.sessions, now))
  }

  /** The tables after the events, from no sessions; None if some event would have been refused. */
  function Replay(digest: string -> string, users: map<string, User>, es: seq<Event>): Option<Db> {
    if |es| == 0 then Some(Db(users, map[]))
    else
      var before := Replay(digest, users, es[..|es| - 1]);
      if before.None? || !Accepts(digest, before.value, es[|es| - 1]) then None
      else Some(Apply(digest, before.value, es[|es| - 1]))
  }

  lemma ReplayNext(digest: string -> string, users: map<string, User>, es: seq<Event>, e: Event)
    requires Replay(digest, users, es).Some? && Accepts(digest, Replay(digest, users, es).value, e)
    ensures Replay(digest, users, es + [e]) == Some(Apply(digest, Replay(digest, users, es).value, e))
  {
    hide Apply, Accepts;
    assert (es + [e])[..|es|] == es;
  }

  /** No event adds, drops or renames a user. */
  lemma {:induction false} UsersStayKeyed(digest: string -> string, users: map<string, User>, es: seq<Event>)
    requires Replay(digest, users, es).Some? && Keyed(users)
    ensures Replay(digest, users, es).value.users.Keys == users.Keys && Keyed(Replay(digest, users, es).value.users)
  {
    hide Format, DropUser, Clean;
    if |es| > 0 { UsersStayKeyed(digest, users, es[..|es| - 1]); }
  }

  /** Event e ends the session of this token, user and start. */
  predicate Ends(e: Event, token: string, user: string, at: Start) {
    match e
    case Created(_, _, _) => false
    case LoggedOut(t) => t == token
    case SessionsDropped(u) => u == user
    case PasswordChanged(u, _) => u == user
    case Cleaned(c) => TextBefore(Expiry(at), c)
  }

  /** Event i created a session for the token and no later event ended it. */
  ghost predicate Survives(es: seq<Event>, token: string, i: nat) {
    && i < |es| && es[i].Created? && es[i].token == token
    && forall j | i < j < |es| :: !Ends(es[j], token, es[i].user, es[i].at)
  }

  /** No other token the history mentions shares this token's digest. */
  ghost predicate CollisionFree(digest: string -> string, token: string, es: seq<Event>) {
    forall e | e in es && (e.Created? || e.LoggedOut?) :: digest(e.token) == digest(token) ==> e.token == token
  }

  /** The token's standing session: its user and start, unless the last events ended it. */
  function Standing(es: seq<Event>, token: string): Option<(string, Start)> {
    if |es| == 0 then None
    else
      var e, before := es[|es| - 1], Standing(es[..|es| - 1], token);
      if e.Created? && e.token == token then Some((e.user, e.at))
      else if before.Some? && Ends(e, token, before.value.0, before.value.1) then None
      else before
  }

  /** The table holds a row for the token exactly when a session stands, and it is that session's row. */
  lemma {:induction false} TableIsStanding(digest: string -> string, users: map<string, User>, es: seq<Event>,
                                           token: string)
    requires Replay(digest, users, es).Some? && CollisionFree(digest, token, es) && Keyed(users)
    ensures var db := Replay(digest, users, es).value;
      && db.users.Keys == users.Keys && Keyed(db.users)
      && match Standing(es, token)
         case None => digest(token) !in db.sessions
         case Some((user, at)) =>
           user in users && digest(token) in db.sessions && db.sessions[digest(token)] == SessionRow(user, at)
  {
    hide Format;
    if |es| > 0 {
      var p, e := es[..|es| - 1], es[|es| - 1];
      assert e in es && forall x | x in p :: x in es;
      TableIsStanding(digest, users, p, token);
    }
  }

  /** A creation survives one more event exactly when that event does not end its session. */
  lemma SurvivesNext(p: seq<Event>, e: Event, token: string, i: nat)
    requires i <= |p|
    ensures Survives(p + [e], token, i) <==>
      if i == |p| then e.Created? && e.token == token
      else Survives(p, token, i) && !Ends(e, token, p[i].user, p[i].at)
  {
    hide Ends;
    var es := p + [e];
    assert forall j | 0 <= j < |p| :: es[j] == p[j];
    assert es[|p|] == e;
  }

  /** A session stands exactly when its creation survives. */
  lemma {:induction false} StandingIsSurvival(digest: string -> string, users: map<string, User>, es: seq<Event>,
                                              token: string)
    requires Replay(digest, users, es).Some? && CollisionFree(digest, token, es) && Keyed(users)
    ensures forall i: nat | Survives(es, token, i) :: Standing(es, token) == Some((es[i].user, es[i].at))
    ensures Standing(es, token).Some? ==> exists i: nat :: Survives(es, token, i)
  {
    hide TextBefore, Format, Apply, Ends;
    if |es| > 0 {
      var p, e := es[..|es| - 1], es[|es| - 1];
      assert e in es && forall x | x in p :: x in es;
      assert es == p + [e];
      StandingIsSurvival(digest, users, p, token);
      TableIsStanding(digest, users, p, token);
      forall i: nat | Survives(es, token, i) ensures Standing(es, token) == Some((es[i].user, es[i].at)) {
        SurvivesNext(p, e, token, i);
      }
      if Standing(es, token).Some? {
        if e.Created? && e.token == token {
          SurvivesNext(p, e, token, |p|);
        } else {
          var i: nat :| Survives(p, token, i);
          SurvivesNext(p, e, token, i);
        }
      }
    }
  }

  /**
   A lookup at time t finds user u exactly when the token was created for u less than twelve
   hours before t and no later logout, committed password change or cleanup ended the session.
   */
  lemma LookupIsHistory(digest: string -> string, users: map<string, User>, es: seq<Event>, token: string,
                        t: Instant, u: string)
    requires Replay(digest, users, es).Some? && CollisionFree(digest, token, es) && Keyed(users)
    ensures Finds(Find(digest, Replay(digest, users, es).value, token, t), u)
      <==> exists i: nat :: Survives(es, token, i) && es[i].user == u && t < es[i].at + 12 * 3600 * SECOND
  {
    hide Format, Parse, Ends, Replay;
    TableIsStanding(digest, users, es, token);
    StandingIsSurvival(digest, users, es, token);
    match Standing(es, token) {
      case None =>
      case Some((user, at)) =>
        ParseFormat(Expiry(at));
        var i: nat :| Survives(es, token, i);
        assert es[i].user == user && es[i].at == at by {
          assert Standing(es, token) == Some((es[i].user, es[i].at));
        }
    }
  }

  /** Event i created a session for the token and nothing ended it but perhaps cleanups a full second before t. */
  ghost predicate Unended(es: seq<Event>, token: string, i: nat, t: Instant) {
    && i < |es| && es[i].Created? && es[i].token == token
    && forall j | i < j < |es| && Ends(es[j], token, es[i].user, es[i].at) :: es[j].Cleaned? && es[j].now + SECOND <= t
  }

  /** Over any history, cleanups a full second or more before a lookup have no part in its answer. */
  lemma OldCleanupsInvisible(digest: string -> string, users: map<string, User>, es: seq<Event>, token: string,
                             t: Instant, u: string)
    requires Replay(digest, users, es).Some? && CollisionFree(digest, token, es) && Keyed(users)
    ensures Finds(Find(digest, Replay(digest, users, es).value, token, t), u)
      <==> exists i: nat :: Unended(es, token, i, t) && es[i].user == u && t < es[i].at + 12 * 3600 * SECOND
  {
    hide Format, Parse, Find, Finds, Replay, CollisionFree, Keyed, TextBefore;
    LookupIsHistory(digest, users, es, token, t, u);
    forall i: nat | i < |es| && es[i].Created? && t < es[i].at + 12 * 3600 * SECOND
      ensures Unended(es, token, i, t) <==> Survives(es, token, i)
    {
      forall j | i < j < |es| && es[j].Cleaned? && es[j].now + SECOND <= t
        ensures !Ends(es[j], token, es[i].user, es[i].at)
      {
        OneSecondApart(es[j].now, Expiry(es[i].at));
      }
    }
  }

  predicate Finds(r: Result<User, LookupError>, u: string) { r.Ok? && r.value.id == u }

  // ---------- cleanup against lookup ----------

  /** The row under this key carries the text of this expiry. */
  predicate PrintedRow(db: Db, key: string, expiry: Instant) {
    key in db.sessions && db.sessions[key].user in db.users && db.sessions[key].expires == Format(expiry)
  }

  /**
   Exactly which lookups at or after a cleanup it changes: those of a live session whose expiry
   shares the cleanup's second with one printed fraction extending the other.
   */
  lemma CleanupChangesLookup(digest: string -> string, db: Db, c: Instant, token: string, t: Instant, expiry: Instant)
    requires c <= t && PrintedRow(db, digest(token), expiry)
    ensures Find(digest, db.(sessions := Clean(db.sessions, c)), token, t) != Find(digest, db, token, t)
      <==> t < expiry && Nested(expiry, c)
  {
    hide Format, Parse, Nested;
    TextOrder(expiry, c);
    ParseFormat(expiry);
  }

  /** So a cleanup changes no lookup made a full second or more after it. */
  lemma CleanupKeepsLaterLookups(digest: string -> string, db: Db, c: Instant, token: string, t: Instant,
                                 expiry: Instant)
    requires c + SECOND <= t && (digest(token) in db.sessions ==> PrintedRow(db, digest(token), expiry))
    ensures Find(digest, db.(sessions := Clean(db.sessions, c)), token, t) == Find(digest, db, token, t)
  {
    hide Format, Parse, TextBefore;
    if digest(token) in db.sessions {
      CleanupChangesLookup(digest, db, c, token, t, expiry);
    }
  }

  /** Cleanup deletes every session expired by a full second and none with a full second left. */
  lemma CleanupBound(db: Db, c: Instant, key: string, expiry: Instant)
    requires PrintedRow(db, key, expiry)
    ensures expiry + SECOND <= c ==> key !in Clean(db.sessions, c)
    ensures c + SECOND <= expiry ==> key in Clean(db.sessions, c)
    ensures key in Clean(db.sessions, c) <==> (expiry == c || ((expiry < c) == Nested(expiry, c)))
  {
    hide Format;
    TextOrder(expiry, c);
  }

  /** A session with half a second left is deleted by a cleanup on the whole second. */
  lemma LiveSessionDeleted(digest: string -> string, user: User, token: string, c: Instant)
    requires Nanos(c) == 0
    ensures c + SECOND / 2 < LIMIT
    ensures
      var db := Db(map[user.id := user], map[digest(token) := Row(user.id, Format(c + SECOND / 2), "")]);
      && Find(digest, db, token, c) == Ok(user)
      && Find(digest, db.(sessions := Clean(db.sessions, c)), token, c) == Err(NotFound)
  {
    hide Format, Parse;
    HalfSecondSortsFirst(c);
    ParseFormat(c + SECOND / 2);
  }

  /** A committed password change ends every session of that user and touches no other lookup. */
  lemma PasswordChangeInvalidates(digest: string -> string, db: Db, user: string, hash: string, token: string,
                                  t: Instant)
    requires Keyed(db.users)
    ensures
      var after := Apply(digest, db, PasswordChanged(user, hash));
      var r := Find(digest, db, token, t);
      Find(digest, after, token, t) == if Finds(r, user) then Err(NotFound) else r
  {
    hide Format, Parse;
  }

  lemma {:induction false} SubsetSize<T>(a: set<T>, b: set<T>)
    requires a <= b
    ensures |a| <= |b|
  {
    if a != {} {
      var x :| x in a;
      SubsetSize(a - {x}, b - {x});
    }
  }

  lemma CleanShrinks(sessions: map<string, Row>, now: Instant)
    ensures |Clean(sessions, now)| <= |sessions|
  {
    hide Format;
    SubsetSize(Clean(sessions, now).Keys, sessions.Keys);
    assert |Clean(sessions, now).Keys| == |Clean(sessions, now)| && |sessions.Keys| == |sessions|;
  }

  // ---------- the store ----------

  /** A failed commit may turn out to have been durable. */
  datatype UpdateFault = NoFault | AtBegin | AtUpdate | AtDelete | AtCommit(durable: bool)

  /** The transaction took effect, whatever the caller was told. */
  predicate Committed(fault: UpdateFault) { fault.NoFault? || (fault.AtCommit? && fault.durable) }

  /** The authentication store. Faults of the database are inputs; time and randomness too. */
  class SessionStore {
    const digest: string -> string
    var users: map<string, User>
    var sessions: map<string, Row>
    ghost var start: map<string, User>
    ghost var log: seq<Event>

    ghost predicate Valid()
      reads this
    {
      Keyed(start) && Replay(digest, start, log) == Some(Db(users, sessions))
    }

    constructor (digest: string -> string, users: map<string, User>)
      requires Keyed(users)
      ensures Valid() && this.digest == digest && log == [] && this.users == users
    {
      this.digest := digest;
      this.users := users;
      this.sessions := map[];
      this.start := users;
      this.log := [];
    }

    /** raw is the 32 random bytes, or None when the generator failed. */
    method CreateSession(raw: Option<seq<Base64.byte>>, user: string, now: Start, fault: bool)
      returns (r: Option<(string, Instant)>)
      requires Valid()
      modifies this
      ensures Valid() && start == old(start) && users == old(users)
      ensures r.Some? <==>
        raw.Some? && !fault && user in users && digest(Base64.Encode(Base64.Url, raw.value)) !in old(sessions)
      ensures r.Some? ==> r.value == (Base64.Encode(Base64.Url, raw.value), Expiry(now))
      ensures log == if r.Some? then old(log) + [Created(r.value.0, user, now)] else old(log)
      ensures r.None? ==> sessions == old(sessions)
      ensures r.Some? ==>
        var row := Row(user, Format(r.value.1), Format(now));
        sessions == old(sessions)[digest(r.value.0) := row]
    {
      hide Format, Replay, Base64.Encode;
      if raw.None? { return None; }
      var token := Base64.Encode(Base64.Url, raw.value);
      if fault || digest(token) in sessions || user !in users { return None; }
      var expires := Expiry(now);
      sessions := sessions[digest(token) := Row(user, Format(expires), Format(now))];
      ReplayNext(digest, start, log, Created(token, user, now));
      log := log + [Created(token, user, now)];
      r := Some((token, expires));
    }

    method FindSession(token: string, now: Instant, fault: bool) returns (r: Result<User, LookupError>)
      requires Valid()
      ensures fault ==> r == Err(Backend)
      ensures !fault ==> r == Find(digest, Db(users, sessions), token, now)
      ensures !fault && CollisionFree(digest, token, log) ==>
        forall u :: Finds(r, u) <==>
          exists i: nat :: Survives(log, token, i) && log[i].user == u && now < log[i].at + 12 * 3600 * SECOND
    {
      hide Parse, Format, Ends, Replay;
      if fault { return Err(Backend); }
      var key := digest(token);
      if key !in sessions || sessions[key].user !in users {
        r := Err(NotFound);
      } else {
        var expires := Parse(sessions[key].expires);
        if expires.None? || expires.value <= now {
          r := Err(NotFound);
        } else {
          r := Ok(users[sessions[key].user]);
        }
      }
      assert r == Find(digest, Db(users, sessions), token, now);
      if CollisionFree(digest, token, log) {
        forall u ensures Finds(r, u) <==>
          exists i: nat :: Survives(log, token, i) && log[i].user == u && now < log[i].at + 12 * 3600 * SECOND
        {
          LookupIsHistory(digest, start, log, token, now, u);
        }
      }
    }

    method DeleteSession(token: string, fault: bool) returns (ok: bool)
      requires Valid()
      modifies this
      ensures Valid() && start == old(start) && users == old(users) && ok == !fault
      ensures log == if ok then old(log) + [LoggedOut(token)] else old(log)
      ensures sessions == if ok then old(sessions) - {digest(token)} else old(sessions)
    {
      hide Format, Replay;
      if fault { return false; }
      sessions := sessions - {digest(token)};
      ReplayNext(digest, start, log, LoggedOut(token));
      log := log + [LoggedOut(token)];
      ok := true;
    }

    method DeleteUserSessions(user: string, fault: bool) returns (ok: bool)
      requires Valid()
      modifies this
      ensures Valid() && start == old(start) && users == old(users) && ok == !fault
      ensures log == if ok then old(log) + [SessionsDropped(user)] else old(log)
      ensures sessions == if ok then DropUser(old(sessions), user) else old(sessions)
    {
      hide Format, Replay;
      if fault { return false; }
      sessions := DropUser(sessions, user);
      ReplayNext(digest, start, log, SessionsDropped(user));
      log := log + [SessionsDropped(user)];
      ok := true;
    }

    /** Both statements run in one transaction: both take effect or neither does. */
    method UpdatePassword(user: string, hash: string, fault: UpdateFault) returns (ok: bool)
      requires Valid()
      modifies this
      ensures Valid() && start == old(start) && ok == fault.NoFault?
      ensures log != old(log) <==> fault == NoFault || fault == AtCommit(true)
      ensures log == if Committed(fault) then old(log) + [PasswordChanged(user, hash)] else old(log)
      ensures !Committed(fault) ==> users == old(users) && sessions == old(sessions)
      ensures Committed(fault) ==> sessions == DropUser(old(sessions), user)
      ensures Committed(fault) ==> users == SetPassword(old(users), user, hash)
      ensures Committed(fault) ==> (forall k | k in sessions :: sessions[k].user != user)
      ensures users.Keys == old(users).Keys
      ensures Committed(fault) && user in users ==>
        var u := old(users)[user];
        users[user] == User(u.id, u.email, u.name, hash, u.role)
      ensures forall k | k in users && k != user :: users[k] == old(users)[k]
    {
      hide Format, Replay;
      if fault.AtBegin? { return false; }
      var usersBefore, sessionsBefore := users, sessions;
      if fault.AtUpdate? { return false; }
      users := SetPassword(users, user, hash);
      if fault.AtDelete? {
        users := usersBefore;
        return false;
      }
      sessions := DropUser(sessions, user);
      if fault.AtCommit? && !fault.durable {
        users, sessions := usersBefore, sessionsBefore;
        return false;
      }
      ReplayNext(digest, start, log, PasswordChanged(user, hash));
      log := log + [PasswordChanged(user, hash)];
      ok := fault.NoFault?;
    }

    /** Deletes by text comparison and reports how many rows went. */
    method CleanupExpired(now: Instant, fault: bool) returns (removed: Option<nat>)
      requires Valid()
      modifies this
      ensures Valid() && start == old(start) && users == old(users)
      ensures removed.None? <==> fault
      ensures log == if fault then old(log) else old(log) + [Cleaned(now)]
      ensures sessions == if fault then old(sessions) else Clean(old(sessions), now)
      ensures removed.Some? ==> removed.value + |sessions| == |old(sessions)|
    {
      hide Format, Replay, Clean;
      if fault { return None; }
      var kept := Clean(sessions, now);
      CleanShrinks(sessions, now);
      removed := Some(|sessions| - |kept|);
      sessions := kept;
      ReplayNext(digest, start, log, Cleaned(now));
      log := log + [Cleaned(now)];
    }
  }
}
