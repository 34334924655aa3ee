/**
 The Docker status poller as a step machine. One poll lists the servers, starts a fixed number of
 workers, hands them positions over an unbuffered channel, and returns when all have exited.
 Each step is one channel operation, one locked cache or recorder operation, or one external event;
 the context may be cancelled, and HTTP handlers may run, between any two of them.
 */
module Poller {
  import opened Wrappers
  import opened StatusCache
  import Recorder

  const CHECK_ACTION: string := "check_docker_status"
  const LIST_ACTION: string := "list_docker_servers"

  /** A worker goroutine: waiting for a job, or at some point of checkDockerStatus, or gone. */
  datatype Worker =
    | Receiving
    | Got(pos: nat)
    | Read(pos: nat, previous: Status)
    | Marked(pos: nat, previous: Status)
    | Checked(pos: nat, previous: Status, ok: bool)
    | Decided(pos: nat, previous: Status, ok: bool, at: int)
    | Recorded(pos: nat, at: int, reference: string)
    | Exited

  predicate Busy(w: Worker) { !w.Receiving? && !w.Exited? }

  /** What the poller goroutine is doing: next positions below it are dispatched, open is the channel. */
  datatype Phase =
    | Due
    | Polling(ids: seq<string>, next: nat, open: bool)
    | Waiting
    | Stopped

  /** How one completed check ended, with the reference it showed if it failed. */
  datatype Outcome = Good | Bad(reference: string)

  /**
   finished counts, per list position, the checks of this poll that ended. outcomes keeps every
   server's completed checks in order; pending are handlers between recording and marking.
   */
  datatype State = State(
    concurrency: nat,
    cancelled: bool,
    phase: Phase,
    workers: seq<Worker>,
    finished: multiset<nat>,
    cache: Statuses,
    log: seq<Recorder.Record>,
    outcomes: map<string, seq<Outcome>>,
    pending: seq<(string, string)>)

  datatype Action =
    | Cancel
    | Tick
    | Stop
    | ListFails(token: string)
    | ListReturns(ids: seq<string>)
    | Dispatch(w: nat)
    | Close
    | Exit(w: nat)
    | EndPoll
    | Work(w: nat, ok: bool, at: int, token: string)
    | HandlerConnected(id: string, at: int)
    | HandlerRecords(id: string, action: string, token: string)
    | HandlerUnavailable(k: nat, at: int)
    | OtherRecord(record: Recorder.Record)

  /** newReference: never empty. */
  function Reference(token: string): string { "err_" + token }

  function Workers(n: nat): seq<Worker> { seq(n, _ => Receiving) }

  function Min(a: nat, b: nat): nat { if a < b then a else b }

  /** The steps of one poll, as against the environment's. */
  predicate InPoll(a: Action) { a.Dispatch? || a.Close? || a.Exit? || a.EndPoll? || a.Work? }

  predicate Enabled(s: State, a: Action) {
    match a
    case Cancel => true
    case Tick => s.phase.Waiting?
    case Stop => s.phase.Waiting? && s.cancelled
    case ListFails(_) => s.phase.Due?
    case ListReturns(_) => s.phase.Due?
    case Dispatch(w) =>
      s.phase.Polling? && s.phase.open && s.phase.next < |s.phase.ids| && w < |s.workers| && s.workers[w].Receiving?
    case Close => s.phase.Polling? && s.phase.open && (s.phase.next == |s.phase.ids| || s.cancelled)
    case Exit(w) => s.phase.Polling? && !s.phase.open && w < |s.workers| && s.workers[w].Receiving?
    case EndPoll => s.phase.Polling? && !s.phase.open && forall w | 0 <= w < |s.workers| :: s.workers[w].Exited?
    case Work(w, _, _, _) =>
      s.phase.Polling? && w < |s.workers| && Busy(s.workers[w]) && s.workers[w].pos < |s.phase.ids|
    case HandlerConnected(_, _) => true
    case HandlerRecords(_, action, _) => action != CHECK_ACTION
    case HandlerUnavailable(k, _) => k < |s.pending|
    case OtherRecord(r) => r.action != CHECK_ACTION
  }

  function OutcomesOf(s: State, id: string): seq<Outcome> {
    if id in s.outcomes then s.outcomes[id] else []
  }

  /** What one step of checkDockerStatus does: the worker's next point, and what it writes where. */
  datatype Effect = Effect(worker: Worker, write: Option<Status>, record: Option<string>, outcome: Option<Outcome>)

  /**
   checkDockerStatus from the worker's point of view. seen is what the cache holds for the server;
   ok is what the check returns; at is the clock; token makes a fresh reference.
   */
  function LocalStep(w: Worker, id: string, seen: Status, cancelled: bool, ok: bool, at: int, token: string): Effect
    requires Busy(w)
  {
    match w
    case Got(pos) => Effect(Read(pos, seen), None, None, None)
    case Read(pos, previous) => Effect(Marked(pos, previous), Some(Status(id, Checking, 0, "")), None, None)
    case Marked(pos, previous) => Effect(Checked(pos, previous, ok), None, None, None)
    case Checked(pos, previous, good) =>
      if cancelled then Effect(Receiving, None, None, None)
      else Effect(Decided(pos, previous, good, at), None, None, None)
    case Decided(pos, previous, good, when) =>
      if good then Effect(Receiving, Some(Status(id, Connected, when, "")), None, Some(Good))
      else if previous.state.Unavailable? && previous.reference != "" then
        Effect(Receiving, Some(Status(id, Unavailable, when, previous.reference)), None, Some(Bad(previous.reference)))
      else Effect(Recorded(pos, when, Reference(token)), None, Some(Reference(token)), None)
    case Recorded(pos, when, reference) =>
      Effect(Receiving, Some(Status(id, Unavailable, when, reference)), None, Some(Bad(reference)))
  }

  function ServerOf(s: State, w: nat): string
    requires s.phase.Polling? && w < |s.workers| && Busy(s.workers[w]) && s.workers[w].pos < |s.phase.ids|
  {
    s.phase.ids[s.workers[w].pos]
  }

  function WorkEffect(s: State, w: nat, ok: bool, at: int, token: string): Effect
    requires Enabled(s, Work(w, ok, at, token))
  {
    LocalStep(s.workers[w], ServerOf(s, w), Lookup(s.cache, ServerOf(s, w)), s.cancelled, ok, at, token)
  }

  /** The step applied to the shared state. */
  function Applied(s: State, w: nat, id: string, e: Effect): State
    requires w < |s.workers| && Busy(s.workers[w])
  {
    s.(workers := s.workers[w := e.worker],
       finished := if e.worker.Receiving? then s.finished + multiset{s.workers[w].pos} else s.finished,
       cache := if e.write.Some? then Store(s.cache, e.write.value) else s.cache,
       log := if e.record.Some? then s.log + [Recorder.Record(e.record.value, CHECK_ACTION, id, "")] else s.log,
       outcomes := if e.outcome.Some? then s.outcomes[id := OutcomesOf(s, id) + [e.outcome.value]] else s.outcomes)
  }

  function Next(s: State, a: Action): State
    requires Enabled(s, a)
  {
    match a
    case Cancel => s.(cancelled := true)
    case Tick => s.(phase := Due)
    case Stop => s.(phase := Stopped)
    case ListFails(token) =>
      s.(phase := Waiting, log := s.log + [Recorder.Record(Reference(token), LIST_ACTION, "", "")])
    case ListReturns(ids) =>
      s.(phase := Polling(ids, 0, true), workers := Workers(Min(s.concurrency, |ids|)), finished := multiset{})
    case Dispatch(w) =>
      s.(workers := s.workers[w := Got(s.phase.next)], phase := s.phase.(next := s.phase.next + 1))
    case Close => s.(phase := s.phase.(open := false))
    case Exit(w) => s.(workers := s.workers[w := Exited])
    case EndPoll => s.(phase := Waiting, workers := [])
    case Work(w, ok, at, token) => Applied(s, w, ServerOf(s, w), WorkEffect(s, w, ok, at, token))
    case HandlerConnected(id, at) => s.(cache := MarkedConnected(s.cache, id, at))
    case HandlerRecords(id, action, token) =>
      s.(log := s.log + [Recorder.Record(Reference(token), action, id, "")],
         pending := s.pending + [(id, Reference(token))])
    case HandlerUnavailable(k, at) =>
      s.(cache := MarkedUnavailable(s.cache, s.pending[k].0, at, s.pending[k].1),
         pending := s.pending[..k] + s.pending[k + 1..])
    case OtherRecord(r) => s.(log := s.log + [r])
  }

  /** A poller about to run its first poll. */
  predicate Fresh(s: State) {
    s.phase.Due? && s.workers == [] && s.cache == map[] && s.log == [] && s.outcomes == map[] && s.pending == []
  }

  /** The state after the actions, or None if one was not possible when it came. */
  function Run(start: State, actions: seq<Action>): Option<State> {
    if |actions| == 0 then Some(start)
    else
      var before := Run(start, actions[..|actions| - 1]);
      if before.None? || !Enabled(before.value, actions[|actions| - 1]) then None
      else Some(Next(before.value, actions[|actions| - 1]))
  }

  // ---------- the worker pool ----------

  function Weight(w: Worker): nat {
    match w
    case Exited => 0
    case Receiving => 1
    case Got(_) => 7
    case Read(_, _) => 6
    case Marked(_, _) => 5
    case Checked(_, _, _) => 4
    case Decided(_, _, _, _) => 3
    case Recorded(_, _, _) => 2
  }

  function Holds(w: Worker, p: nat): nat { if Busy(w) && w.pos == p then 1 else 0 }

  /** Workers busy with position p. */
  function Holders(workers: seq<Worker>, p: nat): nat {
    if |workers| == 0 then 0 else Holders(workers[..|workers| - 1], p) + Holds(workers[|workers| - 1], p)
  }

  /** Checks in flight. */
  function InFlight(workers: seq<Worker>): nat {
    if |workers| == 0 then 0
    else InFlight(workers[..|workers| - 1]) + (if Busy(workers[|workers| - 1]) then 1 else 0)
  }

  /** Every dispatched position is held by one worker or finished, once in all; no other is either. */
  ghost predicate EachOnce(s: State)
    requires s.phase.Polling?
  {
    forall p: nat :: s.finished[p] + Holders(s.workers, p) == if p < s.phase.next then 1 else 0
  }

  ghost predicate PoolInvariant(s: State) {
    if !s.phase.Polling? then s.workers == [] && (s.phase.Stopped? ==> s.cancelled)
    else
      && |s.workers| == Min(s.concurrency, |s.phase.ids|)
      && s.phase.next <= |s.phase.ids|
      && EachOnce(s)
      && (!s.phase.open ==> s.phase.next == |s.phase.ids| || s.cancelled)
      && (s.phase.open ==> forall w | 0 <= w < |s.workers| :: !s.workers[w].Exited?)
      && (forall w | 0 <= w < |s.workers| && Busy(s.workers[w]) :: s.workers[w].pos < s.phase.next)
  }

  lemma {:induction false} HoldersUpdate(workers: seq<Worker>, i: nat, w: Worker, p: nat)
    requires i < |workers|
    ensures Holders(workers[i := w], p) == Holders(workers, p) - Holds(workers[i], p) + Holds(w, p)
    decreases |workers|
  {
    var n := |workers| - 1;
    assert workers[i := w][..n] == if i == n then workers[..n] else workers[..n][i := w];
    if i < n { HoldersUpdate(workers[..n], i, w, p); }
  }

  lemma {:induction false} NoHolders(workers: seq<Worker>, p: nat)
    requires forall w | 0 <= w < |workers| :: !Busy(workers[w])
    ensures Holders(workers, p) == 0
  {
    if |workers| > 0 { NoHolders(workers[..|workers| - 1], p); }
  }

  lemma {:induction false} HolderCounts(workers: seq<Worker>, i: nat)
    requires i < |workers| && Busy(workers[i])
    ensures Holders(workers, workers[i].pos) >= 1
  {
    if i < |workers| - 1 { HolderCounts(workers[..|workers| - 1], i); }
  }

  lemma {:induction false} TwoHolders(workers: seq<Worker>, i: nat, j: nat)
    requires i < j < |workers| && Busy(workers[i]) && Busy(workers[j]) && workers[i].pos == workers[j].pos
    ensures Holders(workers, workers[i].pos) >= 2
  {
    if j < |workers| - 1 { TwoHolders(workers[..|workers| - 1], i, j); } else { HolderCounts(workers[..j], i); }
  }

  /** A check step keeps the worker's position or ends with it, and brings it closer to the end. */
  lemma LocalProgress(w: Worker, id: string, seen: Status, cancelled: bool, ok: bool, at: int, token: string)
    requires Busy(w)
    ensures
      var next := LocalStep(w, id, seen, cancelled, ok, at, token).worker;
      && (next.Receiving? || (Busy(next) && next.pos == w.pos))
      && Weight(next) < Weight(w)
  {
  }

  lemma AppliedKeepsOnce(s: State, w: nat, id: string, e: Effect)
    requires s.phase.Polling? && EachOnce(s) && w < |s.workers| && Busy(s.workers[w])
    requires e.worker.Receiving? || (Busy(e.worker) && e.worker.pos == s.workers[w].pos)
    ensures EachOnce(Applied(s, w, id, e))
  {
    var t := Applied(s, w, id, e);
    forall p: nat ensures t.finished[p] + Holders(t.workers, p) == if p < t.phase.next then 1 else 0 {
      HoldersUpdate(s.workers, w, e.worker, p);
    }
  }

  lemma DispatchKeepsOnce(s: State, w: nat)
    requires Enabled(s, Dispatch(w)) && EachOnce(s)
    ensures EachOnce(Next(s, Dispatch(w)))
  {
    var t := Next(s, Dispatch(w));
    forall p: nat ensures t.finished[p] + Holders(t.workers, p) == if p < t.phase.next then 1 else 0 {
      HoldersUpdate(s.workers, w, Got(s.phase.next), p);
    }
  }

  lemma ExitKeepsOnce(s: State, w: nat)
    requires Enabled(s, Exit(w)) && EachOnce(s)
    ensures EachOnce(Next(s, Exit(w)))
  {
    forall p: nat ensures Holders(s.workers[w := Exited], p) == Holders(s.workers, p) {
      HoldersUpdate(s.workers, w, Exited, p);
    }
  }

  lemma StartOnce(s: State, ids: seq<string>)
    requires s.phase.Due?
    ensures EachOnce(Next(s, ListReturns(ids)))
  {
    var t := Next(s, ListReturns(ids));
    forall p: nat ensures Holders(t.workers, p) == 0 { NoHolders(t.workers, p); }
  }

  lemma PoolDispatch(s: State, w: nat)
    requires Enabled(s, Dispatch(w)) && PoolInvariant(s)
    ensures PoolInvariant(Next(s, Dispatch(w)))
  {
    DispatchKeepsOnce(s, w);
    hide EachOnce;
  }

  lemma PoolExit(s: State, w: nat)
    requires Enabled(s, Exit(w)) && PoolInvariant(s)
    ensures PoolInvariant(Next(s, Exit(w)))
  {
    ExitKeepsOnce(s, w);
    hide EachOnce;
  }

  lemma PoolWork(s: State, w: nat, id: string, e: Effect)
    requires PoolInvariant(s) && s.phase.Polling? && w < |s.workers| && Busy(s.workers[w])
    requires e.worker.Receiving? || (Busy(e.worker) && e.worker.pos == s.workers[w].pos)
    ensures PoolInvariant(Applied(s, w, id, e))
  {
    AppliedKeepsOnce(s, w, id, e);
    hide EachOnce;
  }

  lemma PoolStart(s: State, ids: seq<string>)
    requires s.phase.Due?
    ensures PoolInvariant(Next(s, ListReturns(ids)))
  {
    StartOnce(s, ids);
    hide EachOnce;
  }

  lemma StepKeepsPool(s: State, a: Action)
    requires Enabled(s, a) && PoolInvariant(s)
    ensures PoolInvariant(Next(s, a))
  {
    match a {
      case ListReturns(ids) => PoolStart(s, ids);
      case Dispatch(w) => PoolDispatch(s, w);
      case Exit(w) => PoolExit(s, w);
      case Work(w, ok, at, token) =>
        LocalProgress(s.workers[w], ServerOf(s, w), Lookup(s.cache, ServerOf(s, w)), s.cancelled, ok, at, token);
        hide LocalStep, PoolInvariant, Applied;
        PoolWork(s, w, ServerOf(s, w), WorkEffect(s, w, ok, at, token));
      case _ => QuietPool(s, a);
    }
  }

  lemma QuietPool(s: State, a: Action)
    requires Enabled(s, a) && PoolInvariant(s)
    requires !a.ListReturns? && !a.Dispatch? && !a.Exit? && !a.Work?
    ensures PoolInvariant(Next(s, a))
  {
  }

  lemma StepKeepsLimit(s: State, a: Action)
    requires Enabled(s, a)
    ensures Next(s, a).concurrency == s.concurrency
  {
    hide LocalStep;
  }

  lemma {:induction false} RunKeepsPool(start: State, actions: seq<Action>)
    requires PoolInvariant(start) && Run(start, actions).Some?
    ensures PoolInvariant(Run(start, actions).value)
    ensures Run(start, actions).value.concurrency == start.concurrency
  {
    hide PoolInvariant, Next, Enabled;
    if |actions| > 0 {
      var before := Run(start, actions[..|actions| - 1]).value;
      RunKeepsPool(start, actions[..|actions| - 1]);
      StepKeepsPool(before, actions[|actions| - 1]);
      StepKeepsLimit(before, actions[|actions| - 1]);
    }
  }

  lemma {:induction false} InFlightBound(workers: seq<Worker>)
    ensures InFlight(workers) <= |workers|
  {
    if |workers| > 0 { InFlightBound(workers[..|workers| - 1]); }
  }

  /** In every reachable state at most min(concurrency, listed servers) checks are in flight. */
  lemma BoundedConcurrency(start: State, actions: seq<Action>)
    requires Fresh(start) && Run(start, actions).Some? && Run(start, actions).value.phase.Polling?
    ensures
      var s := Run(start, actions).value;
      InFlight(s.workers) <= Min(start.concurrency, |s.phase.ids|)
  {
    RunKeepsPool(start, actions);
    InFlightBound(Run(start, actions).value.workers);
  }

  /**
   When a poll returns, no worker is left; the positions checked are exactly a prefix of the list,
   each checked once; and without cancellation the prefix is the whole list.
   */
  lemma PollReturnsComplete(start: State, actions: seq<Action>)
    requires Fresh(start) && Run(start, actions).Some? && Enabled(Run(start, actions).value, EndPoll)
    ensures
      var s := Run(start, actions).value;
      && (forall p: nat :: s.finished[p] == if p < s.phase.next then 1 else 0)
      && s.phase.next <= |s.phase.ids| && (!s.cancelled ==> s.phase.next == |s.phase.ids|)
      && Next(s, EndPoll).workers == []
  {
    RunKeepsPool(start, actions);
    var s := Run(start, actions).value;
    forall p: nat ensures s.finished[p] == if p < s.phase.next then 1 else 0 {
      NoHolders(s.workers, p);
      assert s.finished[p] + Holders(s.workers, p) == if p < s.phase.next then 1 else 0;
    }
  }

  // ---------- progress and termination ----------

  ghost predicate CanMove(s: State) { exists a :: InPoll(a) && Enabled(s, a) }

  /** No worker to hand a job to, jobs left, and nobody to cancel. */
  predicate Deadlocked(s: State) {
    s.phase.Polling? && s.workers == [] && s.phase.open && s.phase.next < |s.phase.ids| && !s.cancelled
  }

  /** A poll under way can always take a step of its own, unless it is deadlocked. */
  lemma MovesUnlessDeadlocked(s: State)
    requires s.phase.Polling? && PoolInvariant(s)
    ensures CanMove(s) <==> !Deadlocked(s)
  {
    hide EachOnce;
    if s.phase.open && |s.workers| > 0 {
      assert !s.workers[0].Exited?;
      if Busy(s.workers[0]) {
        assert Enabled(s, Work(0, true, 0, ""));
      } else if s.phase.next < |s.phase.ids| {
        assert Enabled(s, Dispatch(0));
      } else {
        assert Enabled(s, Close);
      }
    } else if s.phase.open {
      assert Enabled(s, Close) <==> !Deadlocked(s);
    } else if w: nat :| w < |s.workers| && Busy(s.workers[w]) {
      assert Enabled(s, Work(w, true, 0, ""));
    } else if w: nat :| w < |s.workers| && s.workers[w].Receiving? {
      assert Enabled(s, Exit(w));
    } else {
      assert Enabled(s, EndPoll);
    }
  }

  /** With at least one worker allowed a poll never gets stuck. */
  lemma NeverStuck(start: State, actions: seq<Action>)
    requires Fresh(start) && Run(start, actions).Some? && Run(start, actions).value.phase.Polling?
    requires start.concurrency >= 1
    ensures CanMove(Run(start, actions).value)
  {
    hide CanMove, EachOnce, Run;
    RunKeepsPool(start, actions);
    MovesUnlessDeadlocked(Run(start, actions).value);
  }

  /** With none it is stuck as soon as a server is listed, until the context is cancelled. */
  lemma StuckWithoutWorkers(s: State, ids: seq<string>)
    requires PoolInvariant(s) && s.phase.Due? && s.concurrency == 0 && ids != [] && !s.cancelled
    ensures !CanMove(Next(s, ListReturns(ids)))
    ensures CanMove(Next(Next(s, ListReturns(ids)), Cancel))
  {
    hide EachOnce;
    var t := Next(s, ListReturns(ids));
    StepKeepsPool(s, ListReturns(ids));
    StepKeepsPool(t, Cancel);
    MovesUnlessDeadlocked(t);
    MovesUnlessDeadlocked(Next(t, Cancel));
  }

  function Weights(workers: seq<Worker>): nat {
    if |workers| == 0 then 0 else Weights(workers[..|workers| - 1]) + Weight(workers[|workers| - 1])
  }

  /** Steps a poll can still take before it returns. */
  function StepsLeft(s: State): int {
    if !s.phase.Polling? then 0
    else 7 * (|s.phase.ids| - s.phase.next) + (if s.phase.open then 1 else 0) + Weights(s.workers) + 1
  }

  lemma {:induction false} WeightsUpdate(workers: seq<Worker>, i: nat, w: Worker)
    requires i < |workers|
    ensures Weights(workers[i := w]) == Weights(workers) - Weight(workers[i]) + Weight(w)
    decreases |workers|
  {
    var n := |workers| - 1;
    assert workers[i := w][..n] == if i == n then workers[..n] else workers[..n][i := w];
    if i < n { WeightsUpdate(workers[..n], i, w); }
  }

  lemma {:induction false} FreshWeights(n: nat)
    ensures Weights(Workers(n)) == n
  {
    if n > 0 {
      FreshWeights(n - 1);
      assert Workers(n)[..n - 1] == Workers(n - 1);
    }
  }

  /** Each step of a poll uses up at least one of the steps it has left; the environment's use none. */
  lemma StepUsesOne(s: State, a: Action)
    requires Enabled(s, a) && PoolInvariant(s) && s.phase.Polling?
    ensures StepsLeft(Next(s, a)) <= StepsLeft(s) - (if InPoll(a) then 1 else 0)
    ensures StepsLeft(s) >= 0
  {
    hide EachOnce;
    match a {
      case Dispatch(w) => WeightsUpdate(s.workers, w, Got(s.phase.next));
      case Exit(w) => WeightsUpdate(s.workers, w, Exited);
      case Work(w, ok, at, token) =>
        LocalProgress(s.workers[w], ServerOf(s, w), Lookup(s.cache, ServerOf(s, w)), s.cancelled, ok, at, token);
        hide LocalStep;
        WeightsUpdate(s.workers, w, WorkEffect(s, w, ok, at, token).worker);
      case _ =>
    }
  }

  /** How many of the actions are the poll's own. */
  function PollSteps(actions: seq<Action>): nat {
    if |actions| == 0 then 0
    else PollSteps(actions[..|actions| - 1]) + (if InPoll(actions[|actions| - 1]) then 1 else 0)
  }

  /** Until it returns, a poll can take no more steps of its own than it has left, however others interleave. */
  lemma {:induction false} PollBounded(s: State, actions: seq<Action>)
    requires PoolInvariant(s) && s.phase.Polling? && Run(s, actions).Some?
    requires forall k | 0 <= k < |actions| :: !actions[k].EndPoll?
    ensures Run(s, actions).value.phase.Polling?
    ensures PollSteps(actions) + StepsLeft(Run(s, actions).value) <= StepsLeft(s)
  {
    if |actions| > 0 {
      var p, a := actions[..|actions| - 1], actions[|actions| - 1];
      PollBounded(s, p);
      RunKeepsPool(s, p);
      hide StepsLeft, PoolInvariant;
      StepUsesOne(Run(s, p).value, a);
      StaysPolling(Run(s, p).value, a);
    }
  }

  lemma StaysPolling(s: State, a: Action)
    requires Enabled(s, a) && s.phase.Polling? && !a.EndPoll?
    ensures Next(s, a).phase.Polling?
  {
    hide LocalStep;
  }

  /** So a poll of n servers takes at most seven steps per server, one per worker, and two of its own. */
  lemma PollTerminates(s: State, ids: seq<string>, actions: seq<Action>)
    requires PoolInvariant(s) && s.phase.Due? && Run(Next(s, ListReturns(ids)), actions).Some?
    requires forall k | 0 <= k < |actions| :: !actions[k].EndPoll?
    ensures PollSteps(actions) < 7 * |ids| + Min(s.concurrency, |ids|) + 2
  {
    var t := Next(s, ListReturns(ids));
    StepKeepsPool(s, ListReturns(ids));
    FreshWeights(Min(s.concurrency, |ids|));
    PollBounded(t, actions);
    RunKeepsPool(t, actions);
    assert StepsLeft(Run(t, actions).value) >= 1;
  }

  /**
   With concurrency at least one a poll returns: whatever interleaves, until it has returned it can
   take a step of its own, and it takes at most so many.
   */
  lemma PollReturns(start: State, before: seq<Action>, ids: seq<string>, actions: seq<Action>)
    requires Fresh(start) && Run(start, before).Some? && Run(start, before).value.phase.Due? && start.concurrency >= 1
    requires Run(Next(Run(start, before).value, ListReturns(ids)), actions).Some?
    requires forall k | 0 <= k < |actions| :: !actions[k].EndPoll?
    ensures CanMove(Run(Next(Run(start, before).value, ListReturns(ids)), actions).value)
    ensures PollSteps(actions) < 7 * |ids| + Min(start.concurrency, |ids|) + 2
  {
    hide CanMove, EachOnce, Run, PollSteps, PoolInvariant;
    FreshInvariant(start);
    RunKeepsPool(start, before);
    var s := Run(start, before).value;
    StepKeepsPool(s, ListReturns(ids));
    PollTerminates(s, ids, actions);
    RunMoves(Next(s, ListReturns(ids)), actions);
  }

  lemma FreshInvariant(s: State)
    requires Fresh(s)
    ensures PoolInvariant(s)
  {
  }

  lemma RunMoves(s: State, actions: seq<Action>)
    requires PoolInvariant(s) && s.phase.Polling? && s.concurrency >= 1 && Run(s, actions).Some?
    requires forall k | 0 <= k < |actions| :: !actions[k].EndPoll?
    ensures CanMove(Run(s, actions).value)
  {
    PollBounded(s, actions);
    RunKeepsPool(s, actions);
    MovesUnlessDeadlocked(Run(s, actions).value);
    hide CanMove, EachOnce, Run;
  }

  /** Once stopped, the poller and its workers never do anything again. */
  lemma {:induction false} StoppedForGood(s: State, actions: seq<Action>)
    requires s.phase.Stopped? && s.workers == [] && Run(s, actions).Some?
    ensures Run(s, actions).value.phase.Stopped? && Run(s, actions).value.workers == []
    ensures forall k | 0 <= k < |actions| ::
      !InPoll(actions[k]) && !actions[k].Tick? && !actions[k].ListFails? && !actions[k].ListReturns?
  {
    hide LocalStep;
    if |actions| > 0 { StoppedForGood(s, actions[..|actions| - 1]); }
  }
}
