/**
 The two login limiters: a process-wide token bucket and a bounded, lazily evicted table of
 fixed windows per account. Times are nanoseconds; tokens are counted in nano-tokens, which is
 exact because the bucket gains one token a second.
 */
module LoginLimiter {
  import opened Clock

  const BURST: int := 20 * SECOND
  const MAX_ENTRIES: int := 1024
  const ATTEMPTS: int := 5
  const WINDOW: int := 60 * SECOND

  /** Clock readings, all after Go's zero time, which is 0 here. */
  type Moment = t: int | 0 < t witness 1

  // ---------- the token bucket ----------

  datatype Bucket = Bucket(tokens: int, last: Moment)

  function Refill(b: Bucket, now: Moment): Bucket {
    var filled := b.tokens + (now - b.last);
    Bucket(if filled > BURST then BURST else filled, now)
  }

  function Spend(b: Bucket): (Bucket, bool) {
    if b.tokens < SECOND then (b, false) else (b.(tokens := b.tokens - SECOND), true)
  }

  /** times[0] is the construction, the others are calls in order. */
  function BucketAfter(times: seq<Moment>): Bucket
    requires |times| >= 1
  {
    if |times| == 1 then Bucket(BURST, times[0])
    else Spend(Refill(BucketAfter(times[..|times| - 1]), times[|times| - 1])).0
  }

  /** What the bucket holds when call i has refilled it and not yet spent. */
  function Level(times: seq<Moment>, i: nat): int
    requires 1 <= i < |times|
  {
    Refill(BucketAfter(times[..i]), times[i]).tokens
  }

  predicate Granted(times: seq<Moment>, i: nat)
    requires 1 <= i < |times|
  {
    Spend(Refill(BucketAfter(times[..i]), times[i])).1
  }

  /** Calls granted among those numbered from i up to but not including j. */
  function Grants(times: seq<Moment>, i: nat, j: nat): nat
    requires i <= j <= |times|
    decreases j
  {
    if i == j then 0
    else Grants(times, i, j - 1) + (if j - 1 >= 1 && Granted(times, j - 1) then 1 else 0)
  }

  ghost predicate Sorted(times: seq<Moment>) {
    forall i, j | 0 <= i < j < |times| :: times[i] <= times[j]
  }

  /** The most the window from call j to call n leaves for call n: the burst, plus refill, less grants. */
  function Allowance(times: seq<Moment>, j: nat, n: nat): int
    requires j <= n < |times|
  {
    BURST + times[n] - times[j] - SECOND * Grants(times, j, n)
  }

  lemma LevelStep(times: seq<Moment>, n: nat)
    requires 1 <= n && n + 1 < |times|
    ensures
      var kept := Level(times, n) - (if Granted(times, n) then SECOND else 0) + times[n + 1] - times[n];
      Level(times, n + 1) == if kept > BURST then BURST else kept
  {
    var p := times[..n + 1];
    assert p[..n] == times[..n] && p[n] == times[n];
  }

  /** The bucket's level is the least allowance over all windows ending at the call. */
  lemma {:induction false} LevelIsLeastAllowance(times: seq<Moment>, n: nat)
    requires 1 <= n < |times| && Sorted(times)
    ensures forall j | 0 <= j <= n :: Level(times, n) <= Allowance(times, j, n)
    ensures exists j :: 0 <= j <= n && Level(times, n) == Allowance(times, j, n)
  {
    hide Level, Granted, BucketAfter;
    if n == 1 {
      FirstLevel(times);
      assert Level(times, 1) == Allowance(times, 1, 1);
    } else {
      LevelIsLeastAllowance(times, n - 1);
      LevelStep(times, n - 1);
      forall j | 0 <= j < n
        ensures Allowance(times, j, n) ==
          Allowance(times, j, n - 1) - (if Granted(times, n - 1) then SECOND else 0) + times[n] - times[n - 1]
      {
      }
      var k :| 0 <= k <= n - 1 && Level(times, n - 1) == Allowance(times, k, n - 1);
      assert Allowance(times, n, n) == BURST;
      assert Level(times, n) == Allowance(times, k, n) || Level(times, n) == Allowance(times, n, n);
    }
  }

  lemma FirstLevel(times: seq<Moment>)
    requires |times| >= 2 && Sorted(times)
    ensures Level(times, 1) == BURST && Grants(times, 0, 1) == 0
  {
    assert times[..1][0] == times[0];
  }

  /** Granting call n would put more grants in the window from j than the burst and its refill. */
  predicate Overdrawn(times: seq<Moment>, j: nat, n: nat)
    requires j <= n < |times|
  {
    (Grants(times, j, n) + 1) * SECOND > BURST + times[n] - times[j]
  }

  ghost predicate SomeOverdrawn(times: seq<Moment>, n: nat)
    requires n < |times|
  {
    exists j :: 0 <= j < n && Overdrawn(times, j, n)
  }

  /** A call is refused exactly when some window from an earlier call or construction would be overdrawn. */
  lemma RefusedExactly(times: seq<Moment>, n: nat)
    requires 1 <= n < |times| && Sorted(times)
    ensures !Granted(times, n) <==> SomeOverdrawn(times, n)
  {
    LevelIsLeastAllowance(times, n);
    assert !Granted(times, n) <==> Level(times, n) < SECOND;
    forall j | 0 <= j <= n ensures Overdrawn(times, j, n) <==> Allowance(times, j, n) < SECOND {
    }
    if !Granted(times, n) {
      var j :| 0 <= j <= n && Level(times, n) == Allowance(times, j, n);
      assert Overdrawn(times, j, n);
      assert Allowance(times, n, n) == BURST;
    }
  }

  /** Any run of calls is granted at most twenty times plus once per elapsed second. */
  lemma {:induction false} GlobalBound(times: seq<Moment>, i: nat, k: nat)
    requires 1 <= i <= k < |times| && Sorted(times)
    ensures Grants(times, i, k + 1) * SECOND <= 20 * SECOND + times[k] - times[i]
    decreases k - i
  {
    hide Granted;
    if Granted(times, k) {
      RefusedExactly(times, k);
      if i < k { assert !Overdrawn(times, i, k); }
    } else if i < k {
      GlobalBound(times, i, k - 1);
    }
  }

  lemma {:induction false} NeverOverspent(times: seq<Moment>)
    requires |times| >= 1 && Sorted(times)
    ensures 0 <= BucketAfter(times).tokens <= BURST && BucketAfter(times).last == times[|times| - 1]
  {
    if |times| > 1 { NeverOverspent(times[..|times| - 1]); }
  }

  /** A call a second or more after the previous one always succeeds. */
  lemma SecondLaterSucceeds(times: seq<Moment>, n: nat)
    requires 1 <= n < |times| && Sorted(times) && times[n - 1] + SECOND <= times[n]
    ensures Granted(times, n)
  {
    NeverOverspent(times[..n]);
  }

  // ---------- the account table ----------

  datatype Entry = Entry(count: int, reset: int)

  type Table = map<string, Entry>

  function Evict(t: Table, now: Moment): Table {
    map k | k in t && t[k].reset >= now :: t[k]
  }

  /** AllowAccount on the table: its new contents and the answer. */
  function AllowStep(t: Table, email: string, now: Moment): (Table, bool) {
    var live := Evict(t, now);
    if email !in live && |live| >= MAX_ENTRIES then (live, false)
    else
      var found := if email in live then live[email] else Entry(0, 0);
      var entry := if found.reset < now then Entry(0, now + WINDOW) else found;
      if entry.count >= ATTEMPTS then (live, false)
      else (live[email := entry.(count := entry.count + 1)], true)
  }

  datatype Call = Allow(email: string, now: Moment) | Reset(email: string)

  function CallStep(t: Table, c: Call): (Table, bool) {
    match c
    case Allow(email, now) => AllowStep(t, email, now)
    case Reset(email) => (t - {email}, true)
  }

  function TableAfter(t: Table, calls: seq<Call>): Table {
    if |calls| == 0 then t else CallStep(TableAfter(t, calls[..|calls| - 1]), calls[|calls| - 1]).0
  }

  /** The limiter's answer to call i of a history that starts from an empty table. */
  predicate Answer(calls: seq<Call>, i: nat)
    requires i < |calls|
  {
    CallStep(TableAfter(map[], calls[..i]), calls[i]).1
  }

  /** Clock readings never go back, and none precedes from. */
  predicate Ordered(calls: seq<Call>, from: int) {
    |calls| == 0
    || (if calls[0].Allow? then from <= calls[0].now && Ordered(calls[1..], calls[0].now)
        else Ordered(calls[1..], from))
  }

  /** The latest clock reading, or from if there is none. */
  function Latest(calls: seq<Call>, from: int): int {
    if |calls| == 0 then from
    else if calls[|calls| - 1].Allow? then calls[|calls| - 1].now
    else Latest(calls[..|calls| - 1], from)
  }

  /** What every operation keeps: bounded size, counts within the limit, windows at most one long. */
  ghost predicate Sound(t: Table, latest: int) {
    && |t| <= MAX_ENTRIES
    && forall k | k in t :: 1 <= t[k].count <= ATTEMPTS && t[k].reset <= latest + WINDOW
  }

  lemma {:induction false} SubmapSize(a: Table, b: Table)
    requires a.Keys <= b.Keys
    ensures |a| <= |b|
    decreases |a|
  {
    if a.Keys != {} {
      var k :| k in a.Keys;
      var a', b' := a - {k}, b - {k};
      assert a'.Keys == a.Keys - {k} && b'.Keys == b.Keys - {k};
      assert |a'.Keys| == |a'| && |b'.Keys| == |b'| && |a.Keys| == |a| && |b.Keys| == |b|;
      SubmapSize(a', b');
    } else {
      assert |a.Keys| == |a|;
    }
  }

  lemma InsertSize(t: Table, k: string, e: Entry)
    ensures |t[k := e]| == |t| + if k in t then 0 else 1
  {
    assert t[k := e].Keys == t.Keys + {k};
    assert |t[k := e].Keys| == |t[k := e]| && |t.Keys| == |t|;
  }

  lemma EvictKeepsSound(t: Table, latest: int, now: Moment)
    requires Sound(t, latest) && latest <= now
    ensures Sound(Evict(t, now), now)
  {
    SubmapSize(Evict(t, now), t);
  }

  lemma StepKeepsSound(t: Table, c: Call, latest: int)
    requires Sound(t, latest) && (c.Allow? ==> latest <= c.now)
    ensures Sound(CallStep(t, c).0, if c.Allow? then c.now else latest)
  {
    match c {
      case Allow(email, now) =>
        hide Evict;
        EvictKeepsSound(t, latest, now);
        var live := Evict(t, now);
        var found := if email in live then live[email] else Entry(0, 0);
        InsertSize(live, email, found);
        var r := AllowStep(t, email, now);
        if r.1 { InsertSize(live, email, r.0[email]); }
      case Reset(email) =>
        SubmapSize(t - {email}, t);
    }
  }

  lemma {:induction false} OrderedPrefix(calls: seq<Call>, from: int)
    requires Ordered(calls, from) && |calls| > 0
    ensures Ordered(calls[..|calls| - 1], from)
    ensures calls[|calls| - 1].Allow? ==> Latest(calls[..|calls| - 1], from) <= calls[|calls| - 1].now
  {
    if |calls| == 1 {
    } else {
      var next := if calls[0].Allow? then calls[0].now else from;
      OrderedPrefix(calls[1..], next);
      assert calls[1..][..|calls| - 2] == calls[..|calls| - 1][1..];
      LatestTail(calls[..|calls| - 1], from);
    }
  }

  lemma {:induction false} LatestTail(calls: seq<Call>, from: int)
    requires |calls| > 0
    ensures Latest(calls, from) == Latest(calls[1..], if calls[0].Allow? then calls[0].now else from)
  {
    if |calls| > 1 {
      LatestTail(calls[..|calls| - 1], from);
      assert calls[..|calls| - 1][1..] == calls[1..][..|calls| - 2];
    }
  }

  /** The table never exceeds its bound, whatever the calls. */
  lemma {:induction false} TableBounded(calls: seq<Call>, from: int)
    requires Ordered(calls, from)
    ensures Sound(TableAfter(map[], calls), Latest(calls, from))
  {
    if |calls| > 0 {
      OrderedPrefix(calls, from);
      TableBounded(calls[..|calls| - 1], from);
      StepKeepsSound(TableAfter(map[], calls[..|calls| - 1]), calls[|calls| - 1], Latest(calls[..|calls| - 1], from));
    }
  }

  /** More than a window after the last call every account is allowed again. */
  lemma RecoversAfterWindow(t: Table, latest: int, email: string, now: Moment)
    requires Sound(t, latest) && latest + WINDOW < now
    ensures AllowStep(t, email, now) == (map[email := Entry(1, now + WINDOW)], true)
  {
    assert Evict(t, now) == map[];
  }

  // ---------- refused attempts ----------

  /** Tables that agree on everything unexpired at now. */
  ghost predicate SameLive(s: Table, t: Table, now: Moment) { Evict(s, now) == Evict(t, now) }

  lemma EvictLater(t: Table, now: Moment, later: Moment)
    requires now <= later
    ensures Evict(Evict(t, now), later) == Evict(t, later)
  {
  }

  lemma EvictRemoval(t: Table, email: string, now: Moment)
    ensures Evict(t - {email}, now) == Evict(t, now) - {email}
  {
  }

  function Answers(t: Table, calls: seq<Call>): seq<bool>
    decreases |calls|
  {
    if |calls| == 0 then []
    else [CallStep(t, calls[0]).1] + Answers(CallStep(t, calls[0]).0, calls[1..])
  }

  lemma {:induction false} SameLiveSameAnswers(s: Table, t: Table, now: Moment, calls: seq<Call>)
    requires SameLive(s, t, now) && Ordered(calls, now)
    ensures Answers(s, calls) == Answers(t, calls)
    decreases |calls|
  {
    if |calls| > 0 {
      hide Evict;
      match calls[0] {
        case Allow(email, later) =>
          EvictLater(s, now, later);
          EvictLater(t, now, later);
          assert CallStep(s, calls[0]) == CallStep(t, calls[0]);
          SameLiveSameAnswers(CallStep(s, calls[0]).0, CallStep(t, calls[0]).0, later, calls[1..]);
        case Reset(email) =>
          EvictRemoval(s, email, now);
          EvictRemoval(t, email, now);
          SameLiveSameAnswers(s - {email}, t - {email}, now, calls[1..]);
      }
    }
  }

  /** A refused attempt changes no later answer, so it never prolongs a lockout. */
  lemma RefusalIsInvisible(t: Table, email: string, now: Moment, calls: seq<Call>)
    requires !AllowStep(t, email, now).1 && Ordered(calls, now)
    ensures Answers(AllowStep(t, email, now).0, calls) == Answers(t, calls)
  {
    EvictLater(t, now, now);
    SameLiveSameAnswers(Evict(t, now), t, now, calls);
  }

  // ---------- one account on its own ----------

  /** The window an account sees, if it is unexpired. */
  function WindowAt(t: Table, email: string, now: Moment): Table {
    if email in t && t[email].reset >= now then map[email := t[email]] else map[]
  }

  /** The account's own calls. */
  function Own(calls: seq<Call>, email: string): seq<Call> {
    if |calls| == 0 then []
    else if calls[|calls| - 1].email == email then Own(calls[..|calls| - 1], email) + [calls[|calls| - 1]]
    else Own(calls[..|calls| - 1], email)
  }

  /** Whenever this account calls, fewer than the maximum entries are live. */
  predicate NeverFull(calls: seq<Call>, email: string) {
    |calls| == 0
    || (NeverFull(calls[..|calls| - 1], email)
        && (calls[|calls| - 1].Allow? && calls[|calls| - 1].email == email ==>
              |Evict(TableAfter(map[], calls[..|calls| - 1]), calls[|calls| - 1].now)| < MAX_ENTRIES))
  }

  lemma OwnCallFollows(s: Table, t: Table, email: string, now: Moment, later: Moment)
    requires WindowAt(s, email, now) == WindowAt(t, email, now) && s.Keys <= {email}
    requires now <= later && |Evict(t, now)| < MAX_ENTRIES
    ensures WindowAt(AllowStep(s, email, now).0, email, later) == WindowAt(AllowStep(t, email, now).0, email, later)
    ensures AllowStep(s, email, now).1 == AllowStep(t, email, now).1 && AllowStep(s, email, now).0.Keys <= {email}
  {
    var live, solo := Evict(t, now), Evict(s, now);
    assert email in solo <==> email in WindowAt(s, email, now);
    assert email in live <==> email in WindowAt(t, email, now);
    assert email in live ==> solo[email] == WindowAt(s, email, now)[email] == live[email];
    assert solo.Keys <= {email};
    SoloSmall(solo, email);
  }

  lemma OtherCallKeepsWindow(t: Table, email: string, c: Call, later: Moment)
    requires c.email != email && (c.Allow? ==> c.now <= later)
    ensures WindowAt(CallStep(t, c).0, email, later) == WindowAt(t, email, later)
  {
  }

  lemma StepFollowsWindow(s: Table, t: Table, email: string, c: Call, latest: int, later: Moment)
    requires forall now: Moment | latest <= now :: WindowAt(s, email, now) == WindowAt(t, email, now)
    requires s.Keys <= {email}
    requires c.Allow? ==> latest <= c.now <= later && (c.email == email ==> |Evict(t, c.now)| < MAX_ENTRIES)
    requires latest <= later
    ensures c.email != email ==> WindowAt(s, email, later) == WindowAt(CallStep(t, c).0, email, later)
    ensures c.email == email ==> WindowAt(CallStep(s, c).0, email, later) == WindowAt(CallStep(t, c).0, email, later)
    ensures c.email == email ==> CallStep(s, c).1 == CallStep(t, c).1 && CallStep(s, c).0.Keys <= {email}
  {
    hide Evict, AllowStep;
    if c.email != email {
      OtherCallKeepsWindow(t, email, c, later);
    } else if c.Allow? {
      OwnCallFollows(s, t, email, c.now, later);
    }
  }

  lemma SoloSmall(t: Table, email: string)
    requires t.Keys <= {email}
    ensures |t| <= 1
  {
    SubmapSize(t, map[email := Entry(0, 0)]);
  }

  /** While the table never fills, the account's state is that of a limiter serving it alone. */
  lemma {:induction false} AccountAlone(calls: seq<Call>, email: string, from: int, later: Moment)
    requires Ordered(calls, from) && NeverFull(calls, email) && Latest(calls, from) <= later
    ensures TableAfter(map[], Own(calls, email)).Keys <= {email}
    ensures
      WindowAt(TableAfter(map[], Own(calls, email)), email, later) == WindowAt(TableAfter(map[], calls), email, later)
  {
    if |calls| > 0 {
      var p, c := calls[..|calls| - 1], calls[|calls| - 1];
      OrderedPrefix(calls, from);
      var own := Own(p, email);
      forall now: Moment | Latest(p, from) <= now
        ensures own == Own(p, email) && TableAfter(map[], own).Keys <= {email}
        ensures WindowAt(TableAfter(map[], own), email, now) == WindowAt(TableAfter(map[], p), email, now)
      {
        AccountAlone(p, email, from, now);
      }
      AccountAlone(p, email, from, later);
      StepFollowsWindow(TableAfter(map[], own), TableAfter(map[], p), email, c, Latest(p, from), later);
      assert (own + [c])[..|own|] == own;
    }
  }

  /** So its answers depend on its own calls only. */
  lemma AnswersDependOnOwnCalls(calls: seq<Call>, i: nat, from: int)
    requires i < |calls| && Ordered(calls[..i + 1], from) && NeverFull(calls[..i + 1], calls[i].email)
    ensures Answer(calls, i) == CallStep(TableAfter(map[], Own(calls[..i], calls[i].email)), calls[i]).1
  {
    var p, c := calls[..i], calls[i];
    assert calls[..i + 1][..i] == p && calls[..i + 1][i] == c;
    OrderedPrefix(calls[..i + 1], from);
    if c.Allow? {
      forall now: Moment | Latest(p, from) <= now
        ensures TableAfter(map[], Own(p, c.email)).Keys <= {c.email}
        ensures
          WindowAt(TableAfter(map[], Own(p, c.email)), c.email, now) == WindowAt(TableAfter(map[], p), c.email, now)
      {
        AccountAlone(p, c.email, from, now);
      }
      AccountAlone(p, c.email, from, c.now);
      StepFollowsWindow(TableAfter(map[], Own(p, c.email)), TableAfter(map[], p), c.email, c, Latest(p, from), c.now);
    }
  }

  // ---------- how many attempts an account gets ----------

  /** Whole or part windows that fit between a and a later time. */
  function WindowsBetween(a: int, b: int): nat {
    if b <= a then 0 else (b - a + WINDOW - 1) / WINDOW
  }

  lemma WindowsMonotone(a: int, b: int, c: int)
    requires b <= c
    ensures WindowsBetween(a, b) <= WindowsBetween(a, c)
  {
  }

  lemma WindowsStep(a: int, b: int)
    requires a < b
    ensures WindowsBetween(a, b) == WindowsBetween(a, b - WINDOW) + 1
  {
    if b - WINDOW > a {
      assert (b - a + WINDOW - 1) / WINDOW == (b - WINDOW - a + WINDOW - 1) / WINDOW + 1;
    }
  }

  /** Attempts granted to the account among calls numbered from i. */
  function AccountGrants(calls: seq<Call>, email: string, i: nat): nat
    requires i <= |calls|
    decreases |calls|
  {
    if i == |calls| then 0
    else
      var n := |calls| - 1;
      AccountGrants(calls[..n], email, i)
      + (if calls[n].Allow? && calls[n].email == email && Answer(calls, n) then 1 else 0)
  }

  /** Resets of the account from call i on. */
  function Resets(calls: seq<Call>, email: string, i: nat): nat
    requires i <= |calls|
    decreases |calls|
  {
    if i == |calls| then 0
    else
      var n := |calls| - 1;
      Resets(calls[..n], email, i) + (if calls[n] == Reset(email) then 1 else 0)
  }

  /** All attempts from call i on are at or after a. */
  predicate Since(calls: seq<Call>, i: nat, a: int) {
    forall j | i <= j < |calls| && calls[j].Allow? :: a <= calls[j].now
  }

  /**
   Grants so far, five forgiven for each reset, against the account's entry: full windows before its
   window, and its own count.
   */
  ghost predicate Charged(t: Table, email: string, grants: int, a: int, latest: int) {
    grants <= 0
    || (if email in t then
          a <= t[email].reset && grants <= t[email].count + ATTEMPTS * WindowsBetween(a, t[email].reset - WINDOW)
        else grants <= ATTEMPTS * WindowsBetween(a, latest))
  }

  lemma Uncharged(t: Table, email: string, a: int, latest: int)
    ensures Charged(t, email, 0, a, latest)
  {
  }

  /** Evicting an expired entry turns its charge into full windows. */
  lemma ChargedEvict(t: Table, email: string, grants: int, a: int, latest: int, now: Moment)
    requires Sound(t, latest) && latest <= now && a <= now && Charged(t, email, grants, a, latest)
    ensures Charged(Evict(t, now), email, grants, a, now)
  {
    if grants > 0 {
      if email !in t {
        WindowsMonotone(a, latest, now);
      } else if t[email].reset < now {
        var r := t[email].reset;
        WindowsMonotone(a, r, now);
        if a < r {
          WindowsStep(a, r);
        } else {
          WindowsMonotone(a, r - WINDOW, r);
          WindowsStep(a, now);
        }
        assert grants <= ATTEMPTS * WindowsBetween(a, now);
      }
    }
  }

  /** Taking the entry away forgives its count and turns its window into a full one. */
  lemma ChargedReset(t: Table, email: string, grants: int, a: int, latest: int)
    requires Sound(t, latest) && Charged(t, email, grants, a, latest)
    ensures Charged(t - {email}, email, grants - ATTEMPTS, a, latest)
  {
    if email in t { WindowsMonotone(a, t[email].reset - WINDOW, latest); }
    hide WindowsBetween;
  }

  lemma ChargedStep(t: Table, email: string, grants: int, a: int, latest: int, c: Call)
    requires Sound(t, latest) && Charged(t, email, grants, a, latest)
    requires c.Allow? ==> latest <= c.now && a <= c.now
    ensures
      var more := if c.Allow? && c.email == email && CallStep(t, c).1 then 1 else 0;
      var forgiven := if c == Reset(email) then ATTEMPTS else 0;
      Charged(CallStep(t, c).0, email, grants + more - forgiven, a, if c.Allow? then c.now else latest)
  {
    if c.Allow? {
      ChargedEvict(t, email, grants, a, latest, c.now);
      hide WindowsBetween, Sound;
      var live := Evict(t, c.now);
      if c.email == email && email in live {
        assert live[email].reset >= c.now;
      }
    } else if c.email == email {
      ChargedReset(t, email, grants, a, latest);
    }
  }

  /** The table and the answer after one more call. */
  lemma NextCall(p: seq<Call>, c: Call)
    ensures TableAfter(map[], p + [c]) == CallStep(TableAfter(map[], p), c).0
    ensures Answer(p + [c], |p|) == CallStep(TableAfter(map[], p), c).1
  {
    hide CallStep;
    assert (p + [c])[..|p|] == p;
  }

  lemma {:induction false} ChargedRun(calls: seq<Call>, email: string, i: nat, a: int, from: int)
    requires i <= |calls| && Ordered(calls, from) && Since(calls, i, a)
    ensures
      var charge := AccountGrants(calls, email, i) - ATTEMPTS * Resets(calls, email, i);
      Charged(TableAfter(map[], calls), email, charge, a, Latest(calls, from))
    decreases |calls|
  {
    hide Charged, Sound, CallStep, Answer, TableAfter, Ordered;
    if i == |calls| {
      Uncharged(TableAfter(map[], calls), email, a, Latest(calls, from));
    } else {
      var p, c := calls[..|calls| - 1], calls[|calls| - 1];
      assert calls == p + [c];
      NextCall(p, c);
      OrderedPrefix(calls, from);
      assert forall j | i <= j < |p| :: p[j] == calls[j];
      ChargedRun(p, email, i, a, from);
      TableBounded(p, from);
      var charge := AccountGrants(p, email, i) - ATTEMPTS * Resets(p, email, i);
      ChargedStep(TableAfter(map[], p), email, charge, a, Latest(p, from), c);
    }
  }

  lemma ChargeBounds(t: Table, email: string, grants: int, a: int, latest: int, b: int)
    requires Sound(t, latest) && Charged(t, email, grants, a, latest) && latest <= b
    ensures grants <= ATTEMPTS * (WindowsBetween(a, b) + 1)
  {
    hide WindowsBetween;
    WindowsMonotone(a, latest, b);
    if email in t { WindowsMonotone(a, t[email].reset - WINDOW, b); }
  }

  /**
   Between two times a <= b an account is granted at most five attempts for each whole or part window
   between them, for each reset of the account, and once more, whatever the other accounts do.
   */
  lemma AccountBound(calls: seq<Call>, email: string, i: nat, a: int, b: int, from: int)
    requires i <= |calls| && Ordered(calls, from) && Since(calls, i, a)
    requires a <= b && Latest(calls, from) <= b
    ensures AccountGrants(calls, email, i) <= ATTEMPTS * (WindowsBetween(a, b) + 1 + Resets(calls, email, i))
  {
    hide WindowsBetween, Charged, Sound;
    ChargedRun(calls, email, i, a, from);
    TableBounded(calls, from);
    var charge := AccountGrants(calls, email, i) - ATTEMPTS * Resets(calls, email, i);
    ChargeBounds(TableAfter(map[], calls), email, charge, a, Latest(calls, from), b);
  }

  lemma {:induction false} NoResets(calls: seq<Call>, email: string, i: nat)
    requires i <= |calls| && forall j | i <= j < |calls| :: calls[j] != Reset(email)
    ensures Resets(calls, email, i) == 0
    decreases |calls|
  {
    if i < |calls| { NoResets(calls[..|calls| - 1], email, i); }
  }

  /** In a stretch without a reset of the account that is five per window and five more. */
  lemma UnresetBound(calls: seq<Call>, email: string, i: nat, a: int, b: int, from: int)
    requires i <= |calls| && Ordered(calls, from) && Since(calls, i, a)
    requires forall j | i <= j < |calls| :: calls[j] != Reset(email)
    requires a <= b && Latest(calls, from) <= b
    ensures AccountGrants(calls, email, i) <= ATTEMPTS * (WindowsBetween(a, b) + 1)
  {
    hide WindowsBetween, Since, Ordered, AccountGrants;
    NoResets(calls, email, i);
    AccountBound(calls, email, i, a, b, from);
  }

  // ---------- why an attempt is refused ----------

  /** Attempts granted to the account at or after a. */
  function GrantsSince(calls: seq<Call>, email: string, a: int): nat
    decreases |calls|
  {
    if |calls| == 0 then 0
    else
      var n := |calls| - 1;
      GrantsSince(calls[..n], email, a)
      + (if calls[n].Allow? && calls[n].email == email && a <= calls[n].now && Answer(calls, n) then 1 else 0)
  }

  lemma {:induction false} GrantsSinceMonotone(calls: seq<Call>, email: string, a: int, b: int)
    requires a <= b
    ensures GrantsSince(calls, email, b) <= GrantsSince(calls, email, a)
    decreases |calls|
  {
    hide Answer;
    if |calls| > 0 { GrantsSinceMonotone(calls[..|calls| - 1], email, a, b); }
  }

  /** A call either leaves the account's entry alone or is a grant that opens or extends its window. */
  lemma EntryStep(t: Table, email: string, c: Call, latest: int)
    requires Sound(t, latest) && (c.Allow? ==> latest <= c.now) && email in CallStep(t, c).0
    ensures var e := CallStep(t, c).0[email];
      if c.Allow? && c.email == email && CallStep(t, c).1 then
        e.reset - WINDOW <= c.now
        && (e.count == 1 || (email in t && e.reset == t[email].reset && e.count == t[email].count + 1))
      else email in t && e == t[email]
  {
  }

  /** An entry's count is backed by that many grants since its window opened. */
  lemma {:induction false} CountsAreGrants(calls: seq<Call>, email: string, from: int)
    requires email in TableAfter(map[], calls) && Ordered(calls, from)
    ensures var e := TableAfter(map[], calls)[email]; e.count <= GrantsSince(calls, email, e.reset - WINDOW)
    decreases |calls|
  {
    hide Answer, Ordered, CallStep, Sound;
    var p, c := calls[..|calls| - 1], calls[|calls| - 1];
    assert calls == p + [c];
    NextCall(p, c);
    OrderedPrefix(calls, from);
    TableBounded(p, from);
    EntryStep(TableAfter(map[], p), email, c, Latest(p, from));
    if email in TableAfter(map[], p) { CountsAreGrants(p, email, from); }
  }

  /** An attempt is refused only if the table is full or five were granted to the account in the last window. */
  lemma RefusedOnlyAfterFive(calls: seq<Call>, i: nat, from: int)
    requires i < |calls| && calls[i].Allow? && !Answer(calls, i) && Ordered(calls[..i], from)
    ensures
      var c, p := calls[i], calls[..i];
      || (c.email !in Evict(TableAfter(map[], p), c.now) && |Evict(TableAfter(map[], p), c.now)| >= MAX_ENTRIES)
      || GrantsSince(p, c.email, c.now - WINDOW) >= ATTEMPTS
  {
    var c, p := calls[i], calls[..i];
    var t := TableAfter(map[], p);
    if c.email in Evict(t, c.now) {
      CountsAreGrants(p, c.email, from);
      GrantsSinceMonotone(p, c.email, c.now - WINDOW, t[c.email].reset - WINDOW);
    }
  }

  // ---------- one lockout, to the nanosecond ----------

  lemma OwnWindow(t: Table, email: string, now: Moment, n: int, reset: int)
    requires email in t && t[email] == Entry(n, reset) && now <= reset && 1 <= n
    ensures AllowStep(t, email, now).1 <==> n < ATTEMPTS
    ensures n < ATTEMPTS ==>
      email in AllowStep(t, email, now).0 && AllowStep(t, email, now).0[email] == Entry(n + 1, reset)
  {
  }

  lemma OwnOpening(t: Table, email: string, now: Moment)
    requires email !in Evict(t, now) && |Evict(t, now)| < MAX_ENTRIES
    ensures AllowStep(t, email, now).1
    ensures email in AllowStep(t, email, now).0 && AllowStep(t, email, now).0[email] == Entry(1, now + WINDOW)
  {
  }

  /**
   An account with no live window, in a table with room, is allowed five attempts within the minute
   its first one opens, and no sixth up to and including that minute's last nanosecond; at the next
   nanosecond, room permitting, it is allowed again.
   */
  lemma LockoutExact(t: Table, email: string, first: Moment, times: seq<Moment>, last: Moment)
    requires email !in Evict(t, first) && |Evict(t, first)| < 1024
    requires |times| == 4 && first <= times[0] <= times[1] <= times[2] <= times[3] <= first + 60 * 1_000_000_000
    requires times[3] <= last
    ensures
      var t1 := AllowStep(t, email, first);
      var t2 := AllowStep(t1.0, email, times[0]);
      var t3 := AllowStep(t2.0, email, times[1]);
      var t4 := AllowStep(t3.0, email, times[2]);
      var t5 := AllowStep(t4.0, email, times[3]);
      && t1.1 && t2.1 && t3.1 && t4.1 && t5.1
      && (AllowStep(t5.0, email, last).1
          <==> first + 60 * 1_000_000_000 < last && |Evict(t5.0, last)| < 1024)
  {
    hide AllowStep;
    OwnOpening(t, email, first);
    var t1 := AllowStep(t, email, first).0;
    OwnWindow(t1, email, times[0], 1, first + WINDOW);
    var t2 := AllowStep(t1, email, times[0]).0;
    OwnWindow(t2, email, times[1], 2, first + WINDOW);
    var t3 := AllowStep(t2, email, times[1]).0;
    OwnWindow(t3, email, times[2], 3, first + WINDOW);
    var t4 := AllowStep(t3, email, times[2]).0;
    OwnWindow(t4, email, times[3], 4, first + WINDOW);
    var t5 := AllowStep(t4, email, times[3]).0;
    if last <= first + WINDOW {
      OwnWindow(t5, email, last, 5, first + WINDOW);
    } else {
      OwnReopening(t5, email, last);
    }
  }

  lemma OwnReopening(t: Table, email: string, now: Moment)
    requires email in t ==> t[email].reset < now
    ensures AllowStep(t, email, now).1 <==> |Evict(t, now)| < MAX_ENTRIES
  {
  }

  // ---------- the limiter ----------

  class LoginLimiter {
    var accounts: Table
    var bucket: Bucket
    ghost var times: seq<Moment>
    ghost var calls: seq<Call>

    /** The fields are what the calls so far make of them, and the clock has not gone back. */
    ghost predicate Valid()
      reads this
    {
      && |times| >= 1 && Sorted(times) && bucket == BucketAfter(times)
      && Ordered(calls, 0) && accounts == TableAfter(map[], calls)
    }

    constructor (now: Moment)
      ensures Valid() && times == [now] && calls == []
    {
      accounts := map[];
      bucket := Bucket(BURST, now);
      times := [now];
      calls := [];
    }

    method AllowGlobal(now: Moment) returns (ok: bool)
      requires Valid() && times[|times| - 1] <= now
      modifies this
      ensures Valid() && times == old(times) + [now] && calls == old(calls) && accounts == old(accounts)
      ensures ok == Granted(times, |times| - 1)
      ensures !ok <==> SomeOverdrawn(times, |times| - 1)
    {
      hide Overdrawn, Sorted, Evict;
      ghost var before := times;
      assert Sorted(before + [now]) by { SortedSnoc(before, now); }
      times := times + [now];
      assert times[..|times| - 1] == before;
      bucket := Refill(bucket, now);
      RefusedExactly(times, |times| - 1);
      if bucket.tokens < SECOND {
        return false;
      }
      bucket := bucket.(tokens := bucket.tokens - SECOND);
      ok := true;
    }

    method AllowAccount(email: string, now: Moment) returns (ok: bool)
      requires Valid() && Latest(calls, 0) <= now
      modifies this
      ensures Valid() && calls == old(calls) + [Allow(email, now)] && times == old(times) && bucket == old(bucket)
      ensures ok == Answer(calls, |calls| - 1)
      ensures |accounts| <= MAX_ENTRIES
    {
      hide Ordered, Sorted, BucketAfter, Evict, TableAfter, Answer;
      ghost var before := calls;
      calls := calls + [Allow(email, now)];
      NextCall(before, Allow(email, now));
      OrderedSnoc(before, 0, Allow(email, now));
      TableBounded(calls, 0);
      EvictExpired(now);
      if email !in accounts && |accounts| >= MAX_ENTRIES { return false; }
      var entry := if email in accounts then accounts[email] else Entry(0, 0);
      if entry.reset < now { entry := Entry(0, now + WINDOW); }
      if entry.count >= ATTEMPTS { return false; }
      entry := entry.(count := entry.count + 1);
      accounts := accounts[email := entry];
      ok := true;
    }

    method Clear(email: string)
      requires Valid()
      modifies this
      ensures Valid() && calls == old(calls) + [Reset(email)] && times == old(times) && bucket == old(bucket)
      ensures accounts == old(accounts) - {email}
    {
      ghost var before := calls;
      calls := calls + [Reset(email)];
      assert calls[..|calls| - 1] == before;
      OrderedSnoc(before, 0, Reset(email));
      accounts := accounts - {email};
    }

    /** Deletes while walking the keys. */
    method EvictExpired(now: Moment)
      modifies this`accounts
      ensures accounts == Evict(old(accounts), now)
    {
      var keys := accounts.Keys;
      while keys != {}
        invariant keys <= accounts.Keys
        invariant accounts ==
          map k | k in old(accounts) && (k in keys || old(accounts)[k].reset >= now) :: old(accounts)[k]
        decreases |keys|
      {
        var key :| key in keys;
        if accounts[key].reset < now {
          accounts := accounts - {key};
        }
        keys := keys - {key};
      }
    }
  }

  lemma SortedSnoc(times: seq<Moment>, now: Moment)
    requires Sorted(times) && (|times| > 0 ==> times[|times| - 1] <= now)
    ensures Sorted(times + [now])
  {
  }

  lemma {:induction false} OrderedSnoc(calls: seq<Call>, from: int, c: Call)
    requires Ordered(calls, from) && (c.Allow? ==> Latest(calls, from) <= c.now)
    ensures Ordered(calls + [c], from)
  {
    if |calls| > 0 {
      LatestTail(calls, from);
      OrderedSnoc(calls[1..], if calls[0].Allow? then calls[0].now else from, c);
      assert (calls + [c])[1..] == calls[1..] + [c];
    }
  }
}
