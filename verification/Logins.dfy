/**
 Any number of logins and password changes at once, as a step machine: the order in which one login
 passes the two limiters, looks the account up, verifies the password, clears the account's window
 and opens a session; and how much password guessing and key derivation every interleaving leaves.
 */
module Logins {
  import opened Wrappers
  import opened Clock
  import opened Counting
  import opened LoginLimiter
  import P = PasswordHash

  /** NormalizeEmail is a library call here: the normal form, or None if the address is refused. */
  type Normalizer = string -> Option<string>

  datatype LoginError = RateLimited | InvalidCredentials | LookupFailed | SessionFailed

  datatype ChangeError = WrongPassword | Mismatch | Refused | UpdateFailed

  datatype Outcome = LoggedIn | NotLoggedIn(login: LoginError) | Changed | NotChanged(change: ChangeError)

  /**
   One request, between two of its locked limiter operations, its store calls and its derivations. The
   last four before Ended belong to a password change, made in a session of the account.
   */
  datatype Op =
    | Arrived(email: string, password: string)
    | Admitted(email: string, password: string)
    | Named(email: string, password: string)
    | Allowed(email: string, password: string, slot: nat)
    | Found(email: string, password: string, slot: nat, hash: string)
    | Matched(email: string)
    | Cleared
    | Asked(email: string, hash: string, current: string, next: string, confirm: string)
    | Renewing(next: string)
    | Storing
    | Ended(outcome: Outcome)

  /** A login's verification against an account's stored hash, and the limiter call that allowed it. */
  datatype Check = Check(email: string, slot: nat, matched: bool)

  /** A password change's verification against the stored hash of its session's account. */
  datatype Recheck = Recheck(email: string, matched: bool)

  /**
   requests names the account of each password change begun. dummies counts the derivations made for
   unknown accounts, hashes those of new passwords; each check and recheck makes one more.
   */
  datatype System = System(
    times: seq<Moment>,
    calls: seq<Call>,
    ops: seq<Op>,
    checks: seq<Check>,
    rechecks: seq<Recheck>,
    requests: seq<string>,
    dummies: nat,
    hashes: nat)

  datatype Action =
    | Arrive(email: string, password: string)
    | AskGlobal(i: nat, now: Moment)
    | NormalizeEmail(i: nat)
    | AskAccount(i: nat, now: Moment)
    | FindUser(i: nat, found: Option<string>, fails: bool)
    | Verify(i: nat)
    | ClearWindow(i: nat)
    | OpenSession(i: nat, fails: bool)
    | AskChange(email: string, hash: string, current: string, next: string, confirm: string)
    | VerifyCurrent(i: nat)
    | HashNext(i: nat, saltFails: bool)
    | StoreHash(i: nat, fails: bool)

  predicate Enabled(s: System, a: Action) {
    match a
    case Arrive(_, _) => true
    case AskGlobal(i, now) => i < |s.ops| && s.ops[i].Arrived? && |s.times| >= 1 && s.times[|s.times| - 1] <= now
    case NormalizeEmail(i) => i < |s.ops| && s.ops[i].Admitted?
    case AskAccount(i, now) => i < |s.ops| && s.ops[i].Named? && Latest(s.calls, 0) <= now
    case FindUser(i, _, _) => i < |s.ops| && s.ops[i].Allowed?
    case Verify(i) => i < |s.ops| && s.ops[i].Found?
    case ClearWindow(i) => i < |s.ops| && s.ops[i].Matched?
    case OpenSession(i, _) => i < |s.ops| && s.ops[i].Cleared?
    case AskChange(_, _, _, _, _) => true
    case VerifyCurrent(i) => i < |s.ops| && s.ops[i].Asked?
    case HashNext(i, _) => i < |s.ops| && s.ops[i].Renewing?
    case StoreHash(i, _) => i < |s.ops| && s.ops[i].Storing?
  }

  function Moved(s: System, i: nat, op: Op): System
    requires i < |s.ops|
  {
    s.(ops := s.ops[i := op])
  }

  function Next(normalize: Normalizer, kdf: P.Kdf, s: System, a: Action): System
    requires Enabled(s, a)
  {
    match a
    case Arrive(email, password) => s.(ops := s.ops + [Arrived(email, password)])
    case AskGlobal(i, now) =>
      var times := s.times + [now];
      var granted := Granted(times, |s.times|);
      Moved(s, i, if granted then Admitted(s.ops[i].email, s.ops[i].password) else Ended(NotLoggedIn(RateLimited)))
        .(times := times)
    case NormalizeEmail(i) =>
      var email := normalize(s.ops[i].email);
      if email.Some? then Moved(s, i, Named(email.value, s.ops[i].password))
      else Moved(s, i, Ended(NotLoggedIn(InvalidCredentials))).(dummies := s.dummies + 1)
    case AskAccount(i, now) =>
      var calls := s.calls + [Allow(s.ops[i].email, now)];
      var granted := Answer(calls, |s.calls|);
      var allowed := Allowed(s.ops[i].email, s.ops[i].password, |s.calls|);
      Moved(s, i, if granted then allowed else Ended(NotLoggedIn(RateLimited))).(calls := calls)
    case FindUser(i, hash, fails) =>
      var op := s.ops[i];
      if fails then Moved(s, i, Ended(NotLoggedIn(LookupFailed)))
      else if hash.Some? then Moved(s, i, Found(op.email, op.password, op.slot, hash.value))
      else Moved(s, i, Ended(NotLoggedIn(InvalidCredentials))).(dummies := s.dummies + 1)
    case Verify(i) =>
      var op := s.ops[i];
      var matched := P.VerifyPassword(kdf, op.hash, op.password);
      Moved(s, i, if matched then Matched(op.email) else Ended(NotLoggedIn(InvalidCredentials)))
        .(checks := s.checks + [Check(op.email, op.slot, matched)])
    case ClearWindow(i) => Moved(s, i, Cleared).(calls := s.calls + [Reset(s.ops[i].email)])
    case OpenSession(i, fails) => Moved(s, i, Ended(if fails then NotLoggedIn(SessionFailed) else LoggedIn))
    case AskChange(email, hash, current, next, confirm) =>
      s.(ops := s.ops + [Asked(email, hash, current, next, confirm)], requests := s.requests + [email])
    case VerifyCurrent(i) =>
      var op := s.ops[i];
      var matched := P.VerifyPassword(kdf, op.hash, op.current);
      var after :=
        if !matched then Ended(NotChanged(WrongPassword))
        else if op.next != op.confirm then Ended(NotChanged(Mismatch))
        else Renewing(op.next);
      Moved(s, i, after).(rechecks := s.rechecks + [Recheck(op.email, matched)])
    case HashNext(i, saltFails) =>
      if !P.Valid(s.ops[i].next) || saltFails then Moved(s, i, Ended(NotChanged(Refused)))
      else Moved(s, i, Storing).(hashes := s.hashes + 1)
    case StoreHash(i, fails) => Moved(s, i, Ended(if fails then NotChanged(UpdateFailed) else Changed))
  }

  /** The limiters just built, and no request yet. */
  function Fresh(start: Moment): System { System([start], [], [], [], [], [], 0, 0) }

  function Run(normalize: Normalizer, kdf: P.Kdf, start: Moment, actions: seq<Action>): Option<System> {
    if |actions| == 0 then Some(Fresh(start))
    else
      var before := Run(normalize, kdf, start, actions[..|actions| - 1]);
      if before.None? || !Enabled(before.value, actions[|actions| - 1]) then None
      else Some(Next(normalize, kdf, before.value, actions[|actions| - 1]))
  }

  // ---------- one request with nothing in between ----------

  /** As many of the planned steps as can be taken. */
  function RunToEnd(normalize: Normalizer, kdf: P.Kdf, s: System, plan: seq<Action>): System
    decreases |plan|
  {
    if |plan| == 0 || !Enabled(s, plan[0]) then s
    else RunToEnd(normalize, kdf, Next(normalize, kdf, s, plan[0]), plan[1..])
  }

  /** hash is what the lookup finds. */
  datatype LoginInput = LoginInput(
    email: string,
    password: string,
    global: Moment,
    account: Moment,
    hash: Option<string>,
    lookupFails: bool,
    sessionFails: bool)

  function Admission(x: LoginInput): seq<Action> {
    [Arrive(x.email, x.password), AskGlobal(0, x.global), NormalizeEmail(0), AskAccount(0, x.account)]
  }

  function Authentication(x: LoginInput): seq<Action> {
    [FindUser(0, x.hash, x.lookupFails), Verify(0), ClearWindow(0), OpenSession(0, x.sessionFails)]
  }

  function LoginPlan(x: LoginInput): seq<Action> { Admission(x) + Authentication(x) }

  datatype ChangeInput = ChangeInput(
    email: string,
    hash: string,
    current: string,
    next: string,
    confirm: string,
    saltFails: bool,
    storeFails: bool)

  function ChangePlan(x: ChangeInput): seq<Action> {
    [AskChange(x.email, x.hash, x.current, x.next, x.confirm), VerifyCurrent(0), HashNext(0, x.saltFails),
     StoreHash(0, x.storeFails)]
  }

  /** The limiters as one request finds them. */
  function Before(times: seq<Moment>, calls: seq<Call>): System { System(times, calls, [], [], [], [], 0, 0) }

  /** The plan's request ends with this outcome and leaves the limiters with these histories. */
  predicate Leaves(normalize: Normalizer, kdf: P.Kdf, s: System, plan: seq<Action>, times: seq<Moment>,
                   calls: seq<Call>, outcome: Outcome) {
    var t := RunToEnd(normalize, kdf, s, plan);
    t.ops == [Ended(outcome)] && t.times == times && t.calls == calls
  }

  /** A login's outcome and limiter calls, in the order its steps decide them. */
  function LoginEnd(normalize: Normalizer, kdf: P.Kdf, times: seq<Moment>, calls: seq<Call>, x: LoginInput):
    (Outcome, seq<Call>)
    requires |times| >= 1
  {
    var email := normalize(x.email);
    if !Granted(times + [x.global], |times|) then (NotLoggedIn(RateLimited), calls)
    else if email.None? then (NotLoggedIn(InvalidCredentials), calls)
    else
      var asked := calls + [Allow(email.value, x.account)];
      if !Answer(asked, |calls|) then (NotLoggedIn(RateLimited), asked)
      else if x.lookupFails then (NotLoggedIn(LookupFailed), asked)
      else if x.hash.None? || !P.VerifyPassword(kdf, x.hash.value, x.password) then
        (NotLoggedIn(InvalidCredentials), asked)
      else (if x.sessionFails then NotLoggedIn(SessionFailed) else LoggedIn, asked + [Reset(email.value)])
  }

  /** The state and the plan after the first step of the plan, if it can be taken. */
  lemma TakeStep(normalize: Normalizer, kdf: P.Kdf, s: System, plan: seq<Action>) returns (t: System, rest: seq<Action>)
    ensures RunToEnd(normalize, kdf, s, plan) == RunToEnd(normalize, kdf, t, rest)
    ensures
      if |plan| > 0 && Enabled(s, plan[0]) then t == Next(normalize, kdf, s, plan[0]) && rest == plan[1..]
      else t == s && rest == []
    ensures |rest| == 0 ==> RunToEnd(normalize, kdf, t, rest) == t
  {
    if |plan| > 0 && Enabled(s, plan[0]) {
      t, rest := Next(normalize, kdf, s, plan[0]), plan[1..];
    } else {
      t, rest := s, [];
    }
  }

  /** A login that has passed the account's limiter. */
  lemma AuthenticationAlone(normalize: Normalizer, kdf: P.Kdf, s: System, x: LoginInput, email: string, slot: nat)
    requires s.ops == [Allowed(email, x.password, slot)]
    ensures
      var t := RunToEnd(normalize, kdf, s, Authentication(x));
      var verified := !x.lookupFails && x.hash.Some? && P.VerifyPassword(kdf, x.hash.value, x.password);
      && t.times == s.times && t.calls == (if verified then s.calls + [Reset(email)] else s.calls)
      && t.ops == [Ended(
        if x.lookupFails then NotLoggedIn(LookupFailed)
        else if !verified then NotLoggedIn(InvalidCredentials)
        else if x.sessionFails then NotLoggedIn(SessionFailed)
        else LoggedIn)]
  {
    hide RunToEnd, Granted, Answer, Latest, P.VerifyPassword, P.Valid;
    var t, p := TakeStep(normalize, kdf, s, Authentication(x));
    t, p := TakeStep(normalize, kdf, t, p);
    t, p := TakeStep(normalize, kdf, t, p);
    t, p := TakeStep(normalize, kdf, t, p);
    t, p := TakeStep(normalize, kdf, t, p);
  }

  /** Up to the account's limiter. */
  lemma AdmissionAlone(normalize: Normalizer, kdf: P.Kdf, times: seq<Moment>, calls: seq<Call>, x: LoginInput)
    returns (s: System, rest: seq<Action>)
    requires |times| >= 1 && times[|times| - 1] <= x.global && Latest(calls, 0) <= x.account
    ensures RunToEnd(normalize, kdf, Before(times, calls), LoginPlan(x)) == RunToEnd(normalize, kdf, s, rest)
    ensures s.times == times + [x.global]
    ensures
      var email := normalize(x.email);
      var passed :=
        Granted(s.times, |times|) && email.Some? && Answer(calls + [Allow(email.value, x.account)], |calls|);
      var (outcome, after) := LoginEnd(normalize, kdf, times, calls, x);
      if passed then
        s.ops == [Allowed(email.value, x.password, |calls|)] && s.calls == calls + [Allow(email.value, x.account)]
        && rest == Authentication(x)
      else s.ops == [Ended(outcome)] && s.calls == after && RunToEnd(normalize, kdf, s, rest) == s
  {
    hide RunToEnd, Granted, Answer, Latest, P.VerifyPassword, P.Valid;
    s, rest := TakeStep(normalize, kdf, Before(times, calls), LoginPlan(x));
    s, rest := TakeStep(normalize, kdf, s, rest);
    s, rest := TakeStep(normalize, kdf, s, rest);
    s, rest := TakeStep(normalize, kdf, s, rest);
    if s.ops[0].Ended? {
      s, rest := TakeStep(normalize, kdf, s, rest);
    } else {
      assert rest == Authentication(x);
    }
  }

  /** A login made alone ends as LoginEnd says. */
  lemma LoginAlone(normalize: Normalizer, kdf: P.Kdf, times: seq<Moment>, calls: seq<Call>, x: LoginInput)
    requires |times| >= 1 && times[|times| - 1] <= x.global && Latest(calls, 0) <= x.account
    ensures
      var (outcome, after) := LoginEnd(normalize, kdf, times, calls, x);
      Leaves(normalize, kdf, Before(times, calls), LoginPlan(x), times + [x.global], after, outcome)
  {
    hide RunToEnd, Granted, Answer, Latest, P.VerifyPassword;
    var s, rest := AdmissionAlone(normalize, kdf, times, calls, x);
    if s.ops[0].Allowed? {
      AuthenticationAlone(normalize, kdf, s, x, normalize(x.email).value, |calls|);
    }
  }

  function ChangeEnd(kdf: P.Kdf, x: ChangeInput): Outcome {
    if !P.VerifyPassword(kdf, x.hash, x.current) then NotChanged(WrongPassword)
    else if x.next != x.confirm then NotChanged(Mismatch)
    else if !P.Valid(x.next) || x.saltFails then NotChanged(Refused)
    else if x.storeFails then NotChanged(UpdateFailed)
    else Changed
  }

  lemma ChangeAlone(normalize: Normalizer, kdf: P.Kdf, times: seq<Moment>, calls: seq<Call>, x: ChangeInput)
    ensures Leaves(normalize, kdf, Before(times, calls), ChangePlan(x), times, calls, ChangeEnd(kdf, x))
  {
    hide RunToEnd, P.VerifyPassword, P.Valid;
    var s, p := TakeStep(normalize, kdf, Before(times, calls), ChangePlan(x));
    s, p := TakeStep(normalize, kdf, s, p);
    s, p := TakeStep(normalize, kdf, s, p);
    s, p := TakeStep(normalize, kdf, s, p);
    s, p := TakeStep(normalize, kdf, s, p);
  }

  // ---------- what every interleaving keeps ----------

  predicate InFlight(op: Op) { op.Allowed? || op.Found? }

  /** The limiter granted this account an attempt at this call. */
  predicate GrantedTo(calls: seq<Call>, slot: nat, email: string) {
    slot < |calls| && calls[slot].Allow? && calls[slot].email == email && Answer(calls, slot)
  }

  /** Every check made or under way was granted. */
  ghost predicate GrantsHold(s: System) {
    && (forall i | 0 <= i < |s.ops| && InFlight(s.ops[i]) :: GrantedTo(s.calls, s.ops[i].slot, s.ops[i].email))
    && (forall k | 0 <= k < |s.checks| :: GrantedTo(s.calls, s.checks[k].slot, s.checks[k].email))
  }

  /** No two checks, made or under way, share a grant. */
  ghost predicate SlotsApart(ops: seq<Op>, checks: seq<Check>) {
    && (forall i, j | 0 <= i < j < |ops| && InFlight(ops[i]) && InFlight(ops[j]) :: ops[i].slot != ops[j].slot)
    && (forall k, m | 0 <= k < m < |checks| :: checks[k].slot != checks[m].slot)
    && (forall i, k | 0 <= i < |ops| && InFlight(ops[i]) && 0 <= k < |checks| :: ops[i].slot != checks[k].slot)
  }

  function Hit(email: string): Check -> bool { (c: Check) => c.email == email && c.matched }

  function Miss(email: string): Check -> bool { (c: Check) => c.email == email && !c.matched }

  function ToClear(email: string): Op -> bool { (op: Op) => op.Matched? && op.email == email }

  /** Each reset of an account, made or due, has a login of its own that verified the account's password. */
  ghost predicate ResetsEarned(s: System) {
    forall email :: Resets(s.calls, email, 0) + Count(s.ops, ToClear(email)) == Count(s.checks, Hit(email))
  }

  function Names(email: string): string -> bool { (e: string) => e == email }

  function Rechecks(email: string): Recheck -> bool { (c: Recheck) => c.email == email }

  function Failed(email: string): Recheck -> bool { (c: Recheck) => c.email == email && !c.matched }

  function ToRecheck(email: string): Op -> bool { (op: Op) => op.Asked? && op.email == email }

  /** Each password change checks its account's stored hash once, and no other's. */
  ghost predicate ChangesChecked(s: System) {
    forall email ::
      Count(s.rechecks, Rechecks(email)) + Count(s.ops, ToRecheck(email)) == Count(s.requests, Names(email))
  }

  /** The derivations an operation may still make. */
  function Owed(op: Op): nat {
    if op.Asked? then 2
    else if op.Admitted? || op.Named? || op.Allowed? || op.Found? || op.Renewing? then 1
    else 0
  }

  /** The derivations an operation has made. */
  function Spent(op: Op): nat {
    match op
    case Matched(_) => 1
    case Cleared => 1
    case Renewing(_) => 1
    case Storing => 2
    case Ended(outcome) =>
      (match outcome
       case LoggedIn => 1
       case NotLoggedIn(error) => if error.InvalidCredentials? || error.SessionFailed? then 1 else 0
       case Changed => 2
       case NotChanged(error) => if error.UpdateFailed? then 2 else 1)
    case _ => 0
  }

  /** All derivations, the dummy ones included. */
  function Derivations(s: System): nat { |s.checks| + |s.rechecks| + s.dummies + s.hashes }

  /**
   Each operation has made as many derivations as its outcome shows: a login refused for its
   credentials exactly one, whether the address, the account or the password was wrong.
   */
  ghost predicate Accounted(s: System) { Derivations(s) == Sum(s.ops, Spent) }

  /** Each derivation was admitted by the global limiter or is one of a password change's two. */
  ghost predicate Paid(s: System) {
    && |s.times| >= 1 && Sorted(s.times)
    && Derivations(s) + Sum(s.ops, Owed) <= Grants(s.times, 1, |s.times|) + 2 * |s.requests|
  }

  ghost predicate Invariant(s: System) {
    && Ordered(s.calls, 0) && GrantsHold(s) && SlotsApart(s.ops, s.checks)
    && ResetsEarned(s) && ChangesChecked(s) && Paid(s) && Accounted(s)
  }

  lemma GrantStays(calls: seq<Call>, c: Call, slot: nat, email: string)
    requires GrantedTo(calls, slot, email)
    ensures GrantedTo(calls + [c], slot, email)
  {
    assert (calls + [c])[..slot] == calls[..slot];
    hide CallStep, TableAfter;
  }

  lemma GrantsStay(s: System, c: Call)
    requires GrantsHold(s)
    ensures GrantsHold(s.(calls := s.calls + [c]))
  {
    hide GrantedTo;
    forall i | 0 <= i < |s.ops| && InFlight(s.ops[i]) ensures GrantedTo(s.calls + [c], s.ops[i].slot, s.ops[i].email) {
      GrantStays(s.calls, c, s.ops[i].slot, s.ops[i].email);
    }
    forall k | 0 <= k < |s.checks| ensures GrantedTo(s.calls + [c], s.checks[k].slot, s.checks[k].email) {
      GrantStays(s.calls, c, s.checks[k].slot, s.checks[k].email);
    }
  }

  lemma NewGrant(calls: seq<Call>, email: string, now: Moment)
    ensures GrantedTo(calls + [Allow(email, now)], |calls|, email) == Answer(calls + [Allow(email, now)], |calls|)
  {
    hide Answer;
    assert (calls + [Allow(email, now)])[|calls|] == Allow(email, now);
  }

  lemma StepKeepsGrants(normalize: Normalizer, kdf: P.Kdf, s: System, a: Action)
    requires Enabled(s, a) && GrantsHold(s)
    ensures GrantsHold(Next(normalize, kdf, s, a))
  {
    hide GrantedTo, Answer, Latest, Granted, P.VerifyPassword, P.Valid;
    match a {
      case AskAccount(i, now) =>
        GrantsStay(s, Allow(s.ops[i].email, now));
        NewGrant(s.calls, s.ops[i].email, now);
      case ClearWindow(i) => GrantsStay(s, Reset(s.ops[i].email));
      case _ =>
    }
  }

  /** Slots in use are below the number of calls, so the next call's slot is new. */
  lemma SlotsBelow(s: System)
    requires GrantsHold(s)
    ensures forall i | 0 <= i < |s.ops| && InFlight(s.ops[i]) :: s.ops[i].slot < |s.calls|
    ensures forall k | 0 <= k < |s.checks| :: s.checks[k].slot < |s.calls|
  {
    hide Answer;
  }

  /** A login keeps its slot, gives it up, or takes a new one. */
  lemma ApartUpdate(ops: seq<Op>, checks: seq<Check>, i: nat, op: Op, slots: nat)
    requires SlotsApart(ops, checks) && i < |ops|
    requires forall j | 0 <= j < |ops| && InFlight(ops[j]) :: ops[j].slot < slots
    requires forall k | 0 <= k < |checks| :: checks[k].slot < slots
    requires InFlight(op) ==> op.slot == slots || (InFlight(ops[i]) && op.slot == ops[i].slot)
    ensures SlotsApart(ops[i := op], checks)
  {
  }

  lemma ApartAppend(ops: seq<Op>, checks: seq<Check>, op: Op)
    requires SlotsApart(ops, checks) && !InFlight(op)
    ensures SlotsApart(ops + [op], checks)
  {
  }

  /** Or hands it to the check it makes. */
  lemma ApartCheck(ops: seq<Op>, checks: seq<Check>, i: nat, op: Op, c: Check)
    requires SlotsApart(ops, checks) && i < |ops| && InFlight(ops[i]) && c.slot == ops[i].slot && !InFlight(op)
    ensures SlotsApart(ops[i := op], checks + [c])
  {
  }

  /** All other steps move one operation and no check; a slot it holds afterwards is its own or the next call's. */
  lemma MovesOne(normalize: Normalizer, kdf: P.Kdf, s: System, a: Action)
    requires Enabled(s, a) && !a.Arrive? && !a.AskChange? && !a.Verify?
    ensures
      var t := Next(normalize, kdf, s, a);
      && a.i < |s.ops| == |t.ops| && t.ops == s.ops[a.i := t.ops[a.i]] && t.checks == s.checks
      && (InFlight(t.ops[a.i]) ==>
            t.ops[a.i].slot == |s.calls| || (InFlight(s.ops[a.i]) && t.ops[a.i].slot == s.ops[a.i].slot))
  {
    hide Answer, Latest, Granted, P.VerifyPassword, P.Valid;
  }

  lemma StepKeepsApart(normalize: Normalizer, kdf: P.Kdf, s: System, a: Action)
    requires Enabled(s, a) && GrantsHold(s) && SlotsApart(s.ops, s.checks)
    ensures var t := Next(normalize, kdf, s, a); SlotsApart(t.ops, t.checks)
  {
    SlotsBelow(s);
    hide GrantsHold, GrantedTo, SlotsApart, Answer, Latest, Granted, P.VerifyPassword, P.Valid;
    var t := Next(normalize, kdf, s, a);
    match a {
      case Arrive(email, password) => ApartAppend(s.ops, s.checks, Arrived(email, password));
      case AskChange(email, hash, current, next, confirm) =>
        ApartAppend(s.ops, s.checks, Asked(email, hash, current, next, confirm));
      case Verify(i) => ApartCheck(s.ops, s.checks, i, t.ops[i], t.checks[|s.checks|]);
      case _ =>
        hide Next, Enabled;
        MovesOne(normalize, kdf, s, a);
        ApartUpdate(s.ops, s.checks, a.i, t.ops[a.i], |s.calls|);
    }
  }

  lemma ResetsNext(p: seq<Call>, c: Call, email: string)
    ensures Resets(p + [c], email, 0) == Resets(p, email, 0) + if c == Reset(email) then 1 else 0
  {
    assert (p + [c])[..|p|] == p;
  }

  lemma StepKeepsResets(normalize: Normalizer, kdf: P.Kdf, s: System, a: Action)
    requires Enabled(s, a) && ResetsEarned(s)
    ensures ResetsEarned(Next(normalize, kdf, s, a))
  {
    hide Count, Resets, Answer, Latest, Granted, P.VerifyPassword, P.Valid;
    var t := Next(normalize, kdf, s, a);
    forall email
      ensures Resets(t.calls, email, 0) + Count(t.ops, ToClear(email)) == Count(t.checks, Hit(email))
    {
      assert Resets(s.calls, email, 0) + Count(s.ops, ToClear(email)) == Count(s.checks, Hit(email));
      match a {
        case Arrive(e, p) => CountNext(s.ops, Arrived(e, p), ToClear(email));
        case AskChange(e, h, c, n, f) => CountNext(s.ops, Asked(e, h, c, n, f), ToClear(email));
        case AskAccount(i, now) =>
          ResetsNext(s.calls, Allow(s.ops[i].email, now), email);
          CountUpdate(s.ops, i, t.ops[i], ToClear(email));
        case Verify(i) =>
          CountNext(s.checks, t.checks[|s.checks|], Hit(email));
          CountUpdate(s.ops, i, t.ops[i], ToClear(email));
        case ClearWindow(i) =>
          ResetsNext(s.calls, Reset(s.ops[i].email), email);
          CountUpdate(s.ops, i, t.ops[i], ToClear(email));
        case _ => CountUpdate(s.ops, a.i, t.ops[a.i], ToClear(email));
      }
    }
  }

  lemma StepKeepsChanges(normalize: Normalizer, kdf: P.Kdf, s: System, a: Action)
    requires Enabled(s, a) && ChangesChecked(s)
    ensures ChangesChecked(Next(normalize, kdf, s, a))
  {
    hide Count, Answer, Latest, Granted, P.VerifyPassword, P.Valid;
    var t := Next(normalize, kdf, s, a);
    forall email
      ensures Count(t.rechecks, Rechecks(email)) + Count(t.ops, ToRecheck(email)) == Count(t.requests, Names(email))
    {
      assert Count(s.rechecks, Rechecks(email)) + Count(s.ops, ToRecheck(email)) == Count(s.requests, Names(email));
      match a {
        case Arrive(e, p) => CountNext(s.ops, Arrived(e, p), ToRecheck(email));
        case AskChange(e, h, c, n, f) =>
          CountNext(s.ops, Asked(e, h, c, n, f), ToRecheck(email));
          CountNext(s.requests, e, Names(email));
        case VerifyCurrent(i) =>
          CountNext(s.rechecks, t.rechecks[|s.rechecks|], Rechecks(email));
          CountUpdate(s.ops, i, t.ops[i], ToRecheck(email));
        case _ => CountUpdate(s.ops, a.i, t.ops[a.i], ToRecheck(email));
      }
    }
  }

  lemma {:induction false} GrantsPrefix(times: seq<Moment>, now: Moment, i: nat, j: nat)
    requires i <= j <= |times|
    ensures Grants(times + [now], i, j) == Grants(times, i, j)
    decreases j
  {
    hide Spend, Refill, BucketAfter;
    if i < j {
      GrantsPrefix(times, now, i, j - 1);
      if j - 1 >= 1 { assert (times + [now])[..j - 1] == times[..j - 1]; }
    }
  }

  lemma GlobalKeepsPaid(normalize: Normalizer, kdf: P.Kdf, s: System, i: nat, now: Moment)
    requires Enabled(s, AskGlobal(i, now)) && Paid(s)
    ensures Paid(Next(normalize, kdf, s, AskGlobal(i, now)))
  {
    hide Granted, Sum;
    SortedSnoc(s.times, now);
    hide Sorted;
    GrantsPrefix(s.times, now, 1, |s.times|);
    SumUpdate(s.ops, i, Next(normalize, kdf, s, AskGlobal(i, now)).ops[i], Owed);
  }

  lemma StepKeepsPaid(normalize: Normalizer, kdf: P.Kdf, s: System, a: Action)
    requires Enabled(s, a) && Paid(s)
    ensures Paid(Next(normalize, kdf, s, a))
  {
    hide Granted, Grants, Sum, Sorted, Answer, Latest, P.VerifyPassword, P.Valid;
    match a {
      case Arrive(email, password) => SumNext(s.ops, Arrived(email, password), Owed);
      case AskChange(email, hash, current, next, confirm) =>
        SumNext(s.ops, Asked(email, hash, current, next, confirm), Owed);
      case AskGlobal(i, now) => GlobalKeepsPaid(normalize, kdf, s, i, now);
      case _ => SumUpdate(s.ops, a.i, Next(normalize, kdf, s, a).ops[a.i], Owed);
    }
  }

  lemma StepKeepsAccounts(normalize: Normalizer, kdf: P.Kdf, s: System, a: Action)
    requires Enabled(s, a) && Accounted(s)
    ensures Accounted(Next(normalize, kdf, s, a))
  {
    hide Granted, Sum, Answer, Latest, P.VerifyPassword, P.Valid;
    match a {
      case Arrive(email, password) => SumNext(s.ops, Arrived(email, password), Spent);
      case AskChange(email, hash, current, next, confirm) =>
        SumNext(s.ops, Asked(email, hash, current, next, confirm), Spent);
      case _ => SumUpdate(s.ops, a.i, Next(normalize, kdf, s, a).ops[a.i], Spent);
    }
  }

  lemma StepKeepsOrder(normalize: Normalizer, kdf: P.Kdf, s: System, a: Action)
    requires Enabled(s, a) && Ordered(s.calls, 0)
    ensures Ordered(Next(normalize, kdf, s, a).calls, 0)
  {
    hide Ordered, Answer, Latest, Granted, P.VerifyPassword, P.Valid;
    match a {
      case AskAccount(i, now) => OrderedSnoc(s.calls, 0, Allow(s.ops[i].email, now));
      case ClearWindow(i) => OrderedSnoc(s.calls, 0, Reset(s.ops[i].email));
      case _ =>
    }
  }

  lemma {:induction false} RunKeeps(normalize: Normalizer, kdf: P.Kdf, start: Moment, actions: seq<Action>)
    requires Run(normalize, kdf, start, actions).Some?
    ensures Invariant(Run(normalize, kdf, start, actions).value)
  {
    hide Next, Enabled, GrantsHold, SlotsApart, ResetsEarned, ChangesChecked, Paid, Accounted;
    if |actions| == 0 {
      FreshKeeps(start);
    } else {
      var s, a := Run(normalize, kdf, start, actions[..|actions| - 1]).value, actions[|actions| - 1];
      RunKeeps(normalize, kdf, start, actions[..|actions| - 1]);
      StepKeepsGrants(normalize, kdf, s, a);
      StepKeepsApart(normalize, kdf, s, a);
      StepKeepsResets(normalize, kdf, s, a);
      StepKeepsChanges(normalize, kdf, s, a);
      StepKeepsPaid(normalize, kdf, s, a);
      StepKeepsAccounts(normalize, kdf, s, a);
      StepKeepsOrder(normalize, kdf, s, a);
    }
  }

  lemma FreshKeeps(start: Moment)
    ensures Invariant(Fresh(start))
  {
  }

  /** The derivations of a run are exactly those its requests' outcomes show. */
  lemma DerivationsExact(normalize: Normalizer, kdf: P.Kdf, start: Moment, actions: seq<Action>)
    requires Run(normalize, kdf, start, actions).Some?
    ensures
      var s := Run(normalize, kdf, start, actions).value;
      |s.checks| + |s.rechecks| + s.dummies + s.hashes == Sum(s.ops, Spent)
  {
    hide Run, GrantsHold, SlotsApart, ResetsEarned, ChangesChecked, Paid, Ordered, Sum;
    RunKeeps(normalize, kdf, start, actions);
  }

  // ---------- how much guessing that leaves ----------

  /**
   Key derivations of logins and password changes, the dummy ones included: at most twenty and one
   per second since the first login asked, and two for each password change.
   */
  lemma DerivationBound(normalize: Normalizer, kdf: P.Kdf, start: Moment, actions: seq<Action>)
    requires Run(normalize, kdf, start, actions).Some?
    ensures
      var s := Run(normalize, kdf, start, actions).value;
      var admitted := if |s.times| > 1 then BURST + s.times[|s.times| - 1] - s.times[1] else 0;
      Derivations(s) * SECOND <= admitted + 2 * SECOND * |s.requests|
  {
    hide Run, GrantsHold, SlotsApart, ResetsEarned, ChangesChecked, Accounted, Ordered, Sum, Granted;
    RunKeeps(normalize, kdf, start, actions);
    var s := Run(normalize, kdf, start, actions).value;
    if |s.times| > 1 {
      hide Grants;
      GlobalBound(s.times, 1, |s.times| - 1);
    }
  }

  /** Checks against the account's stored hash that were allowed by call i or a later one. */
  function Guesses(checks: seq<Check>, email: string, i: nat): nat {
    if |checks| == 0 then 0
    else
      var c := checks[|checks| - 1];
      Guesses(checks[..|checks| - 1], email, i) + (if c.email == email && c.slot >= i then 1 else 0)
  }

  function Slots(checks: seq<Check>, email: string, i: nat): set<nat> {
    set k | 0 <= k < |checks| && checks[k].email == email && checks[k].slot >= i :: checks[k].slot
  }

  lemma {:induction false} GuessesAreSlots(checks: seq<Check>, email: string, i: nat)
    requires forall k, m | 0 <= k < m < |checks| :: checks[k].slot != checks[m].slot
    ensures Guesses(checks, email, i) == |Slots(checks, email, i)|
  {
    hide Slots;
    if |checks| == 0 {
      NoSlots(email, i);
    } else {
      var p, c := checks[..|checks| - 1], checks[|checks| - 1];
      GuessesAreSlots(p, email, i);
      SlotsNext(p, c, email, i);
      assert checks == p + [c];
      SlotNew(p, c.slot, email, i);
    }
  }

  lemma NoSlots(email: string, i: nat)
    ensures Slots([], email, i) == {}
  {
  }

  lemma SlotNew(p: seq<Check>, slot: nat, email: string, i: nat)
    requires forall k | 0 <= k < |p| :: p[k].slot != slot
    ensures slot !in Slots(p, email, i)
  {
  }

  lemma SlotsNext(p: seq<Check>, c: Check, email: string, i: nat)
    ensures
      Slots(p + [c], email, i)
      == if c.email == email && c.slot >= i then Slots(p, email, i) + {c.slot} else Slots(p, email, i)
  {
    var q := p + [c];
    assert q[|p|] == c;
    forall x | x in Slots(p, email, i) ensures x in Slots(q, email, i) {
      var k :| 0 <= k < |p| && p[k].email == email && p[k].slot >= i && p[k].slot == x;
      assert q[k] == p[k];
    }
  }

  /** Distinct grants of the account from call i on number no more than the limiter's count of them. */
  lemma {:induction false} SlotsAreGrants(calls: seq<Call>, email: string, i: nat, slots: set<nat>)
    requires i <= |calls| && forall x | x in slots :: i <= x && GrantedTo(calls, x, email)
    ensures |slots| <= AccountGrants(calls, email, i)
    decreases |calls|
  {
    hide Answer, AccountGrants;
    if i == |calls| {
      NoneAtOrAbove(slots, i);
    } else {
      var n := |calls| - 1;
      var p := calls[..n];
      assert calls == p + [calls[n]];
      forall x | x in slots - {n} ensures i <= x && GrantedTo(p, x, email) { GrantEarlier(p, calls[n], x, email); }
      SlotsAreGrants(p, email, i, slots - {n});
      AccountGrantsNext(p, calls[n], email, i);
    }
  }

  lemma NoneAtOrAbove(slots: set<nat>, i: nat)
    requires forall x | x in slots :: i <= x < i
    ensures |slots| == 0
  {
    if x :| x in slots { assert false; }
  }

  lemma GrantEarlier(p: seq<Call>, c: Call, slot: nat, email: string)
    requires GrantedTo(p + [c], slot, email) && slot < |p|
    ensures GrantedTo(p, slot, email)
  {
    assert (p + [c])[..slot] == p[..slot];
    hide CallStep, TableAfter;
  }

  lemma AccountGrantsNext(p: seq<Call>, c: Call, email: string, i: nat)
    requires i <= |p|
    ensures AccountGrants(p + [c], email, i)
      == AccountGrants(p, email, i) + if GrantedTo(p + [c], |p|, email) then 1 else 0
  {
    hide Answer;
    assert (p + [c])[..|p|] == p;
  }

  /**
   However requests interleave: of a login's attempts on an account from limiter call i on, made
   between a and b, at most five for each window, for each reset of the account since, and once more
   are ever checked against its stored hash.
   */
  lemma GuessBound(normalize: Normalizer, kdf: P.Kdf, start: Moment, actions: seq<Action>, email: string,
                   i: nat, a: int, b: int)
    requires Run(normalize, kdf, start, actions).Some? && i <= |Run(normalize, kdf, start, actions).value.calls|
    requires Since(Run(normalize, kdf, start, actions).value.calls, i, a)
    requires a <= b && Latest(Run(normalize, kdf, start, actions).value.calls, 0) <= b
    ensures
      var s := Run(normalize, kdf, start, actions).value;
      Guesses(s.checks, email, i) <= ATTEMPTS * (WindowsBetween(a, b) + 1 + Resets(s.calls, email, i))
  {
    hide Run, ResetsEarned, ChangesChecked, Paid, Accounted, Ordered, Guesses, AccountGrants, Resets, WindowsBetween;
    hide Since, Latest, Answer;
    RunKeeps(normalize, kdf, start, actions);
    var s := Run(normalize, kdf, start, actions).value;
    GuessesAreSlots(s.checks, email, i);
    SlotsAreGrants(s.calls, email, i, Slots(s.checks, email, i));
    AccountBound(s.calls, email, i, a, b, 0);
  }

  lemma {:induction false} GuessesHitOrMiss(checks: seq<Check>, email: string)
    ensures Guesses(checks, email, 0) == Count(checks, Hit(email)) + Count(checks, Miss(email))
  {
    if |checks| > 0 { GuessesHitOrMiss(checks[..|checks| - 1], email); }
  }

  /** Every wrong password that was checked against the account's stored hash, by a login or a password change. */
  function WrongGuesses(s: System, email: string): nat {
    Count(s.checks, Miss(email)) + Count(s.rechecks, Failed(email))
  }

  lemma {:induction false} FailedRechecks(rechecks: seq<Recheck>, email: string)
    ensures Count(rechecks, Failed(email)) <= Count(rechecks, Rechecks(email))
  {
    if |rechecks| > 0 { FailedRechecks(rechecks[..|rechecks| - 1], email); }
  }

  /** Logins so far that verified the account's password, whoever made them. */
  function Matches(s: System, email: string): nat { Count(s.checks, Hit(email)) }

  /** Password changes begun so far in the account's own sessions. */
  function Changes(s: System, email: string): nat { Count(s.requests, Names(email)) }

  /**
   Over a run from a to b, whatever the account's owner does meanwhile: the wrong passwords checked
   against its stored hash are at most five for each window and five more, four for each login that
   got it right, and one for each password change made in a session of the account.
   */
  lemma FailedGuessBound(normalize: Normalizer, kdf: P.Kdf, start: Moment, actions: seq<Action>, email: string,
                         a: int, b: int)
    requires Run(normalize, kdf, start, actions).Some? && a <= b
    requires Since(Run(normalize, kdf, start, actions).value.calls, 0, a)
    requires Latest(Run(normalize, kdf, start, actions).value.calls, 0) <= b
    ensures
      var s := Run(normalize, kdf, start, actions).value;
      WrongGuesses(s, email)
      <= ATTEMPTS * (WindowsBetween(a, b) + 1) + (ATTEMPTS - 1) * Matches(s, email) + Changes(s, email)
  {
    hide Run, GrantsHold, SlotsApart, Paid, Accounted, Ordered, Guesses, Count, Resets, WindowsBetween, Since, Latest;
    RunKeeps(normalize, kdf, start, actions);
    var s := Run(normalize, kdf, start, actions).value;
    GuessBound(normalize, kdf, start, actions, email, 0, a, b);
    GuessesHitOrMiss(s.checks, email);
    FailedRechecks(s.rechecks, email);
    assert Resets(s.calls, email, 0) + Count(s.ops, ToClear(email)) == Count(s.checks, Hit(email));
    assert Count(s.rechecks, Rechecks(email)) + Count(s.ops, ToRecheck(email)) == Count(s.requests, Names(email));
  }

  /** While no login verified the account's password, logins check five guesses per window and five more. */
  lemma UnmatchedBound(normalize: Normalizer, kdf: P.Kdf, start: Moment, actions: seq<Action>, email: string,
                       a: int, b: int)
    requires Run(normalize, kdf, start, actions).Some? && a <= b
    requires Matches(Run(normalize, kdf, start, actions).value, email) == 0
    requires Since(Run(normalize, kdf, start, actions).value.calls, 0, a)
    requires Latest(Run(normalize, kdf, start, actions).value.calls, 0) <= b
    ensures
      var s := Run(normalize, kdf, start, actions).value;
      Guesses(s.checks, email, 0) <= ATTEMPTS * (WindowsBetween(a, b) + 1)
  {
    hide Run, GrantsHold, SlotsApart, ChangesChecked, Paid, Accounted, Ordered, Guesses, Count, Resets, WindowsBetween;
    hide Since, Latest;
    RunKeeps(normalize, kdf, start, actions);
    var s := Run(normalize, kdf, start, actions).value;
    GuessBound(normalize, kdf, start, actions, email, 0, a, b);
    assert Resets(s.calls, email, 0) + Count(s.ops, ToClear(email)) == Count(s.checks, Hit(email));
  }
}
