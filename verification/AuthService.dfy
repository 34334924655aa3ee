/**
 Login and password change on the limiter and the session store, each proved to end, and to leave the
 limiter, as its steps in the concurrent machine do when nothing comes in between.
 */
module AuthService {
  import opened Wrappers
  import opened LoginLimiter
  import opened Logins
  import Sessions
  import Calendar
  import Base64
  import P = PasswordHash

  datatype Opened = Opened(user: Sessions.User, token: string, expires: Calendar.Instant)

  predicate HasEmail(users: map<string, Sessions.User>, id: string, email: string) {
    id in users && users[id].email == email
  }

  /** The unique index on the address. */
  ghost predicate UniqueEmails(users: map<string, Sessions.User>) {
    forall i, j | i in users && j in users && users[i].email == users[j].email :: i == j
  }

  /** This row has the address, and its stored hash accepts the password. */
  predicate Opens(kdf: P.Kdf, users: map<string, Sessions.User>, id: string, email: string, password: string) {
    HasEmail(users, id, email) && P.VerifyPassword(kdf, users[id].passwordHash, password)
  }

  /** q is short enough and derives the key that password does. */
  predicate SameKey(kdf: P.Kdf, salt: seq<Base64.byte>, q: string, password: string) {
    |q| <= 1024 && kdf(q, salt, P.Configured(), P.OUTPUT_BYTES) == kdf(password, salt, P.Configured(), P.OUTPUT_BYTES)
  }

  /** The current password is right, and the new one is repeated and of allowed length. */
  predicate Ready(kdf: P.Kdf, user: Sessions.User, current: string, next: string, confirm: string) {
    P.VerifyPassword(kdf, user.passwordHash, current) && next == confirm && 12 <= |next| <= 1024
  }

  /** What the lookup of the address may find: the stored hash of a row that has it, or nothing if none does. */
  ghost predicate Lookup(users: map<string, Sessions.User>, email: string, found: Option<string>) {
    if found.None? then forall id :: !HasEmail(users, id, email)
    else exists id :: HasEmail(users, id, email) && users[id].passwordHash == found.value
  }

  lemma Looked(users: map<string, Sessions.User>, email: string, id: Option<string>)
    requires id.None? ==> forall k :: !HasEmail(users, k, email)
    requires id.Some? ==> HasEmail(users, id.value, email)
    ensures Lookup(users, email, if id.Some? then Some(users[id.value].passwordHash) else None)
  {
  }

  /** A lookup that finds nothing the password opens means no row it opens. */
  lemma NoneOpens(kdf: P.Kdf, users: map<string, Sessions.User>, email: string, found: Option<string>, password: string)
    requires Lookup(users, email, found)
    ensures UniqueEmails(users) && (found.None? || !P.VerifyPassword(kdf, found.value, password)) ==>
      forall id :: !Opens(kdf, users, id, email, password)
  {
    hide P.VerifyPassword;
  }

  lemma SomeLookup(users: map<string, Sessions.User>, email: string) returns (found: Option<string>)
    ensures Lookup(users, email, found)
  {
    if id :| HasEmail(users, id, email) { found := Some(users[id].passwordHash); } else { found := None; }
  }

  function LoginOutcome(r: Result<Opened, LoginError>): Outcome {
    if r.Ok? then LoggedIn else NotLoggedIn(r.error)
  }

  function ChangeOutcome(r: Result<string, ChangeError>): Outcome {
    if r.Ok? then Changed else NotChanged(r.error)
  }

  /** The login's inputs with a lookup that found this. */
  ghost predicate AsInMachine(normalize: Normalizer, kdf: P.Kdf, users: map<string, Sessions.User>, x: LoginInput,
                              times: seq<Moment>, calls: seq<Call>, timesAfter: seq<Moment>, callsAfter: seq<Call>,
                              outcome: Outcome) {
    && (normalize(x.email).Some? ==> Lookup(users, normalize(x.email).value, x.hash))
    && Leaves(normalize, kdf, Before(times, calls), LoginPlan(x), timesAfter, callsAfter, outcome)
  }

  class Service {
    const limiter: LoginLimiter
    const store: Sessions.SessionStore
    const normalize: Normalizer
    const kdf: P.Kdf

    ghost predicate Valid()
      reads this, limiter, store
    {
      limiter.Valid() && store.Valid()
    }

    constructor (limiter: LoginLimiter, store: Sessions.SessionStore, normalize: Normalizer, kdf: P.Kdf)
      requires limiter.Valid() && store.Valid()
      ensures Valid() && this.limiter == limiter && this.store == store
      ensures this.normalize == normalize && this.kdf == kdf
    {
      this.limiter := limiter;
      this.store := store;
      this.normalize := normalize;
      this.kdf := kdf;
    }

    /** The key of the user row with this address, if there is one. */
    method FindUserByEmail(email: string) returns (found: Option<string>)
      ensures found.None? <==> forall id :: !HasEmail(store.users, id, email)
      ensures found.Some? ==> HasEmail(store.users, found.value, email)
    {
      if id :| id in store.users && HasEmail(store.users, id, email) {
        found := Some(id);
      } else {
        found := None;
      }
    }

    /**
     The part of a login that ends with the account's window cleared: the key of the user row whose
     password this is. x are its inputs in the machine, with what the lookup finds; fails says whether
     the session insert will.
     */
    method Authenticate(email: string, password: string, global: Moment, account: Moment, lookupFails: bool,
                        ghost fails: bool)
      returns (r: Result<string, LoginError>, ghost x: LoginInput)
      requires limiter.Valid() && limiter.times[|limiter.times| - 1] <= global && Latest(limiter.calls, 0) <= account
      modifies limiter
      ensures limiter.Valid() && limiter.times == old(limiter.times) + [global]
      ensures x == LoginInput(email, password, global, account, x.hash, lookupFails, fails)
      ensures normalize(email).Some? ==> Lookup(store.users, normalize(email).value, x.hash)
      ensures
        var outcome := if r.Err? then NotLoggedIn(r.error) else if fails then NotLoggedIn(SessionFailed) else LoggedIn;
        LoginEnd(normalize, kdf, old(limiter.times), old(limiter.calls), x) == (outcome, limiter.calls)
      ensures r.Ok? ==> normalize(email).Some? && Opens(kdf, store.users, r.value, normalize(email).value, password)
      ensures r != Err(SessionFailed)
    {
      hide P.VerifyPassword, Latest, Ordered, TableAfter, Sorted, BucketAfter, Granted, Answer, SomeOverdrawn, Lookup;
      x := LoginInput(email, password, global, account, None, lookupFails, fails);
      if normalize(email).Some? {
        var any := SomeLookup(store.users, normalize(email).value);
        x := x.(hash := any);
      }
      var ok := limiter.AllowGlobal(global);
      if !ok { return Err(RateLimited), x; }
      var normalized := normalize(email);
      if normalized.None? { return Err(InvalidCredentials), x; }
      ok := limiter.AllowAccount(normalized.value, account);
      if !ok { return Err(RateLimited), x; }
      if lookupFails { return Err(LookupFailed), x; }
      var found := FindUserByEmail(normalized.value);
      Looked(store.users, normalized.value, found);
      x := x.(hash := if found.Some? then Some(store.users[found.value].passwordHash) else None);
      if found.None? { return Err(InvalidCredentials), x; }
      if !P.VerifyPassword(kdf, store.users[found.value].passwordHash, password) { return Err(InvalidCredentials), x; }
      limiter.Clear(normalized.value);
      r := Ok(found.value);
    }

    /**
     global and account are the clock when the limiters are asked, start when the session is made;
     raw is the session's randomness. The account's window is cleared only by its own password,
     and a session row appears only on success.
     */
    method Login(email: string, password: string, global: Moment, account: Moment, lookupFails: bool,
                 raw: Option<seq<Base64.byte>>, start: Sessions.Start, insertFails: bool)
      returns (r: Result<Opened, LoginError>)
      requires Valid() && limiter.times[|limiter.times| - 1] <= global && Latest(limiter.calls, 0) <= account
      modifies limiter, store
      ensures Valid() && store.users == old(store.users)
      ensures limiter.times == old(limiter.times) + [global]
      ensures r == Err(RateLimited) <==>
        SomeOverdrawn(limiter.times, |limiter.times| - 1)
        || (normalize(email).Some? && !AllowStep(old(limiter.accounts), normalize(email).value, account).1)
      ensures |limiter.calls| == |old(limiter.calls)| <==>
        normalize(email).None? || SomeOverdrawn(limiter.times, |limiter.times| - 1)
      ensures |limiter.calls| > |old(limiter.calls)| ==>
        var asked := old(limiter.calls) + [Allow(normalize(email).value, account)];
        if r.Ok? || r == Err(SessionFailed) then limiter.calls == asked + [Reset(normalize(email).value)]
        else limiter.calls == asked
      ensures r.Ok? || r == Err(SessionFailed) ==>
        normalize(email).Some? && exists id :: Opens(kdf, store.users, id, normalize(email).value, password)
      ensures r.Ok? ==> normalize(email) == Some(r.value.user.email)
      ensures r.Ok? ==> P.VerifyPassword(kdf, r.value.user.passwordHash, password)
      ensures r.Ok? ==> r.value.expires == Sessions.Expiry(start)
      ensures r.Ok? ==> store.log == old(store.log) + [Sessions.Created(r.value.token, r.value.user.id, start)]
      ensures !r.Ok? ==> store.log == old(store.log)
      ensures lookupFails ==> r == Err(LookupFailed) || r == Err(RateLimited) || normalize(email).None?
      ensures r == Err(LookupFailed) ==> lookupFails
      ensures r == Err(InvalidCredentials) && UniqueEmails(store.users) ==>
        normalize(email).None? || forall id :: !Opens(kdf, store.users, id, normalize(email).value, password)
      ensures r == Err(SessionFailed) ==>
        raw.None? || insertFails || store.digest(Base64.Encode(Base64.Url, raw.value)) in store.sessions
      ensures
        var sessionFails :=
          raw.None? || insertFails || store.digest(Base64.Encode(Base64.Url, raw.value)) in old(store.sessions);
        exists hash ::
          var x := LoginInput(email, password, global, account, hash, lookupFails, sessionFails);
          AsInMachine(normalize, kdf, store.users, x, old(limiter.times), old(limiter.calls),
                      limiter.times, limiter.calls, LoginOutcome(r))
    {
      hide AllowStep, SomeOverdrawn, P.VerifyPassword, Latest, Ordered, TableAfter, Sorted, BucketAfter, Granted;
      hide Answer, Sessions.Replay, Sessions.SessionRow, Base64.Encode, Leaves, Lookup;
      ghost var times, calls := limiter.times, limiter.calls;
      ghost var fails :=
        raw.None? || insertFails || store.digest(Base64.Encode(Base64.Url, raw.value)) in store.sessions;
      var key, x := Authenticate(email, password, global, account, lookupFails, fails);
      LoginAlone(normalize, kdf, times, calls, x);
      RefusedExactly(limiter.times, |times|);
      if normalize(email).Some? {
        NextCall(calls, Allow(normalize(email).value, account));
        NoneOpens(kdf, store.users, normalize(email).value, x.hash, password);
      }
      if key.Err? { return Err(key.error); }
      Sessions.UsersStayKeyed(store.digest, store.start, store.log);
      var user := store.users[key.value];
      assert Opens(kdf, store.users, key.value, normalize(email).value, password);
      var session := store.CreateSession(raw, user.id, start, insertFails);
      if session.None? { return Err(SessionFailed); }
      r := Ok(Opened(user, session.value.0, session.value.1));
    }

    /**
     Success needs the current password, a repeated new one of allowed length, and the commit. Once
     committed, even by a commit that reports an error, the stored hash accepts exactly what derives
     the new password's key and no session of the user is left. Otherwise nothing changes.
     */
    method ChangePassword(user: Sessions.User, current: string, next: string, confirm: string,
                          salt: Option<seq<Base64.byte>>, fault: Sessions.UpdateFault)
      returns (r: Result<string, ChangeError>)
      requires Valid() && P.Sized(kdf) && (salt.Some? ==> |salt.value| == P.SALT_BYTES)
      modifies store
      ensures Valid()
      ensures r.Ok? <==> Ready(kdf, user, current, next, confirm) && salt.Some? && fault.NoFault?
      ensures
        var committed := Ready(kdf, user, current, next, confirm) && salt.Some? && Sessions.Committed(fault);
        if committed then
          (exists hash :: store.log == old(store.log) + [Sessions.PasswordChanged(user.id, hash)])
          && (user.id in store.users ==> forall q ::
                P.VerifyPassword(kdf, store.users[user.id].passwordHash, q) <==> SameKey(kdf, salt.value, q, next))
          && (forall k :: k in store.sessions ==> store.sessions[k].user != user.id)
        else store.users == old(store.users) && store.sessions == old(store.sessions) && store.log == old(store.log)
      ensures
        var x := ChangeInput(user.email, user.passwordHash, current, next, confirm, salt.None?, !fault.NoFault?);
        Leaves(normalize, kdf, Before(limiter.times, limiter.calls), ChangePlan(x), limiter.times, limiter.calls,
               ChangeOutcome(r))
    {
      hide P.VerifyPassword, P.HashPassword, Leaves, Sessions.Replay;
      ChangeAlone(normalize, kdf, limiter.times, limiter.calls,
                  ChangeInput(user.email, user.passwordHash, current, next, confirm, salt.None?, !fault.NoFault?));
      if !P.VerifyPassword(kdf, user.passwordHash, current) { return Err(WrongPassword); }
      if next != confirm { return Err(Mismatch); }
      if salt.None? { return Err(Refused); }
      var hash := P.HashPassword(kdf, next, salt.value);
      forall q ensures hash.Some? ==> (P.VerifyPassword(kdf, hash.value, q) <==> SameKey(kdf, salt.value, q, next)) {
        P.VerifyHashed(kdf, next, q, salt.value);
      }
      P.VerifyHashed(kdf, next, next, salt.value);
      if hash.None? { return Err(Refused); }
      var ok := store.UpdatePassword(user.id, hash.value, fault);
      if !ok { return Err(UpdateFailed); }
      r := Ok(hash.value);
    }
  }
}
