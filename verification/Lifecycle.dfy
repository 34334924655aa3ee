/**
 The life of the application: listen, start the session cleanup and the Docker poller, serve until
 the server fails or the context is cancelled, shut the server down, stop and join both tasks, then
 close the Docker client and the store. The poller here is the poller machine itself.
 */
module Lifecycle {
  import opened Wrappers
  import Poller

  /** Where the goroutine running Run stands. */
  datatype Main =
    | Starting
    | Serving
    | Draining
    | AwaitingServe
    | StoppingPoller
    | JoiningPoller
    | StoppingCleanup
    | JoiningCleanup
    | ClosingDocker
    | ClosingStore
    | Completing
    | Returned(failed: bool)

  /** The goroutine in Serve; its result waits in a channel of capacity one. */
  datatype Http = NotServing | Accepting | Sent(failed: bool) | Taken

  /** The session cleanup goroutine. */
  datatype Cleanup = NotStarted | Selecting(cancelled: bool) | Cleaning(cancelled: bool) | Done

  datatype Event = DockerClosed(failed: bool) | StoreClosed(failed: bool) | ShutdownCompleted(clean: bool)

  datatype System = System(
    main: Main,
    http: Http,
    cancelled: bool,
    shuttingDown: bool,
    poller: Option<Poller.State>,
    cleanup: Cleanup,
    runFailed: bool,
    dockerFailed: bool,
    closeFailed: bool,
    events: seq<Event>)

  datatype Action =
    | Cancel
    | CancelReachesPoller
    | CancelReachesCleanup
    | Listen(fails: bool, started: Poller.State)
    | TakeServeResult
    | SeeCancel
    | Drained(fails: bool)
    | StopPoller
    | JoinPoller
    | StopCleanup
    | JoinCleanup
    | CloseDocker(fails: bool)
    | CloseStore(fails: bool)
    | Complete
    | ServeReturns(failed: bool)
    | CleanupTick
    | CleanupRan
    | CleanupStops
    | PollerActs(a: Poller.Action)

  predicate Enabled(s: System, a: Action) {
    match a
    case Cancel => true
    case CancelReachesPoller => s.cancelled && s.poller.Some?
    case CancelReachesCleanup => s.cancelled && (s.cleanup.Selecting? || s.cleanup.Cleaning?)
    case Listen(_, started) => s.main.Starting? && Poller.Fresh(started) && !started.cancelled
    case TakeServeResult => (s.main.Serving? || s.main.AwaitingServe?) && s.http.Sent?
    case SeeCancel => s.main.Serving? && s.cancelled
    case Drained(_) => s.main.Draining?
    case StopPoller => s.main.StoppingPoller? && s.poller.Some?
    case JoinPoller => s.main.JoiningPoller? && s.poller.Some? && s.poller.value.phase.Stopped?
    case StopCleanup => s.main.StoppingCleanup?
    case JoinCleanup => s.main.JoiningCleanup? && s.cleanup.Done?
    case CloseDocker(_) => s.main.ClosingDocker?
    case CloseStore(_) => s.main.ClosingStore?
    case Complete => s.main.Completing?
    case ServeReturns(_) => s.http.Accepting?
    case CleanupTick => s.cleanup.Selecting?
    case CleanupRan => s.cleanup.Cleaning?
    case CleanupStops => s.cleanup.Selecting? && s.cleanup.cancelled
    case PollerActs(p) => s.poller.Some? && !p.Cancel? && Poller.Enabled(s.poller.value, p)
  }

  function CancelCleanup(c: Cleanup): Cleanup {
    match c
    case Selecting(_) => Selecting(true)
    case Cleaning(_) => Cleaning(true)
    case _ => c
  }

  function CancelPoller(p: Poller.State): Poller.State { p.(cancelled := true) }

  function Next(s: System, a: Action): System
    requires Enabled(s, a)
  {
    match a
    case Cancel => s.(cancelled := true)
    case CancelReachesPoller => s.(poller := Some(CancelPoller(s.poller.value)))
    case CancelReachesCleanup => s.(cleanup := CancelCleanup(s.cleanup))
    case Listen(fails, started) =>
      if fails then s.(main := ClosingDocker, runFailed := true)
      else s.(main := Serving, http := Accepting, cleanup := Selecting(false), poller := Some(started))
    case TakeServeResult =>
      s.(main := StoppingPoller, http := Taken, runFailed := s.runFailed || s.http.failed)
    case SeeCancel => s.(main := Draining, shuttingDown := true)
    case Drained(fails) => s.(main := AwaitingServe, runFailed := s.runFailed || fails)
    case StopPoller => s.(main := JoiningPoller, poller := Some(CancelPoller(s.poller.value)))
    case JoinPoller => s.(main := StoppingCleanup)
    case StopCleanup => s.(main := JoiningCleanup, cleanup := CancelCleanup(s.cleanup))
    case JoinCleanup => s.(main := ClosingDocker)
    case CloseDocker(fails) =>
      s.(main := ClosingStore, dockerFailed := fails, events := s.events + [DockerClosed(fails)])
    case CloseStore(fails) => s.(main := Completing, closeFailed := fails, events := s.events + [StoreClosed(fails)])
    case Complete =>
      s.(main := Returned(s.runFailed || s.dockerFailed || s.closeFailed),
         events := if s.shuttingDown then s.events + [ShutdownCompleted(!s.runFailed && !s.closeFailed)] else s.events)
    case ServeReturns(failed) => s.(http := Sent(failed))
    case CleanupTick => s.(cleanup := Cleaning(s.cleanup.cancelled))
    case CleanupRan => s.(cleanup := Selecting(s.cleanup.cancelled))
    case CleanupStops => s.(cleanup := Done)
    case PollerActs(p) => s.(poller := Some(Poller.Next(s.poller.value, p)))
  }

  const INITIAL: System := System(Starting, NotServing, false, false, None, NotStarted, false, false, false, [])

  function Run(actions: seq<Action>): Option<System> {
    if |actions| == 0 then Some(INITIAL)
    else
      var before := Run(actions[..|actions| - 1]);
      if before.None? || !Enabled(before.value, actions[|actions| - 1]) then None
      else Some(Next(before.value, actions[|actions| - 1]))
  }

  // ---------- what holds in every state ----------

  /** finish has begun. */
  predicate Finishing(m: Main) { m.ClosingDocker? || m.ClosingStore? || m.Completing? || m.Returned? }

  predicate PollerJoined(m: Main) { m.StoppingCleanup? || m.JoiningCleanup? || Finishing(m) }

  /** The poller never started, or has stopped with every worker gone. */
  predicate PollerGone(s: System) {
    s.poller.Some? ==> s.poller.value.phase.Stopped? && s.poller.value.workers == []
  }

  predicate CleanupGone(c: Cleanup) { c.NotStarted? || c.Done? }

  /** Exactly what finish has closed and logged so far. */
  predicate EventsMatch(s: System) {
    match s.main
    case ClosingStore => |s.events| == 1 && s.events[0].DockerClosed?
    case Completing => |s.events| == 2 && s.events[0].DockerClosed? && s.events[1] == StoreClosed(s.closeFailed)
    case Returned(_) =>
      && |s.events| == (if s.shuttingDown then 3 else 2)
      && s.events[0].DockerClosed? && s.events[1] == StoreClosed(s.closeFailed)
      && (s.shuttingDown ==> s.events[2] == ShutdownCompleted(!s.runFailed && !s.closeFailed))
    case _ => s.events == []
  }

  ghost predicate Invariant(s: System) { EventsMatch(s) && FlagsMatch(s) && CleanupMatches(s) && PollerMatches(s) }

  /** Which server results and flags each stage allows. */
  predicate FlagsMatch(s: System) {
    && (s.main.Starting? ==> s.http.NotServing? && !s.shuttingDown)
    && (!s.main.Starting? && !Finishing(s.main) ==> !s.http.NotServing?)
    && (s.main.Draining? || s.main.AwaitingServe? ==> s.shuttingDown && !s.http.Taken?)
    && (s.main.Serving? ==> !s.http.Taken? && !s.shuttingDown)
    && (s.shuttingDown ==> s.cancelled)
  }

  /** Where the session cleanup can be at each stage. */
  predicate CleanupMatches(s: System) {
    && (Finishing(s.main) ==> CleanupGone(s.cleanup))
    && (s.main.Starting? <==> s.cleanup.NotStarted? && !Finishing(s.main))
    && (s.main.JoiningCleanup? ==> s.cleanup.Done? || s.cleanup.cancelled)
    && (s.main.Serving? && !s.cancelled ==> (s.cleanup.Selecting? || s.cleanup.Cleaning?) && !s.cleanup.cancelled)
  }

  /** Where the poller can be at each stage. */
  ghost predicate PollerMatches(s: System) {
    && (s.poller.Some? ==> Poller.PoolInvariant(s.poller.value))
    && (PollerJoined(s.main) ==> PollerGone(s))
    && (s.main.Starting? ==> s.poller.None?)
    && (!s.main.Starting? && !Finishing(s.main) ==> s.poller.Some?)
    && (s.main.JoiningPoller? ==> s.poller.value.cancelled)
  }

  lemma GoneStaysGone(p: Poller.State, a: Poller.Action)
    requires p.phase.Stopped? && p.workers == [] && Poller.Enabled(p, a)
    ensures Poller.Next(p, a).phase.Stopped? && Poller.Next(p, a).workers == []
    ensures !Poller.InPoll(a) && !a.Tick? && !a.Stop? && !a.ListFails? && !a.ListReturns?
  {
  }

  lemma CancelledStays(p: Poller.State, a: Poller.Action)
    requires Poller.Enabled(p, a)
    ensures p.cancelled ==> Poller.Next(p, a).cancelled
  {
    hide Poller.LocalStep;
  }

  lemma PollerStepKeeps(s: System, p: Poller.Action)
    requires Enabled(s, PollerActs(p)) && PollerMatches(s)
    ensures PollerMatches(Next(s, PollerActs(p)))
  {
    Poller.StepKeepsPool(s.poller.value, p);
    CancelledStays(s.poller.value, p);
    if s.poller.value.phase.Stopped? && s.poller.value.workers == [] { GoneStaysGone(s.poller.value, p); }
    hide Poller.PoolInvariant, Poller.Next, Poller.Enabled;
  }

  lemma CancelKeepsPool(p: Poller.State)
    requires Poller.PoolInvariant(p)
    ensures Poller.PoolInvariant(CancelPoller(p))
  {
    Poller.StepKeepsPool(p, Poller.Cancel);
  }

  lemma StepKeepsFlags(s: System, a: Action)
    requires Enabled(s, a) && EventsMatch(s) && FlagsMatch(s)
    ensures EventsMatch(Next(s, a)) && FlagsMatch(Next(s, a))
  {
    hide Poller.Enabled, Poller.Next, Poller.Fresh;
  }

  lemma StepKeepsCleanup(s: System, a: Action)
    requires Enabled(s, a) && CleanupMatches(s)
    ensures CleanupMatches(Next(s, a))
  {
    hide Poller.Enabled, Poller.Next, Poller.Fresh;
  }

  lemma FreshPool(p: Poller.State)
    requires Poller.Fresh(p)
    ensures Poller.PoolInvariant(p)
  {
  }

  lemma StoppedEmpty(p: Poller.State)
    requires Poller.PoolInvariant(p) && p.phase.Stopped?
    ensures p.workers == [] && p.cancelled
  {
  }

  predicate TouchesPoller(a: Action) { a.CancelReachesPoller? || a.StopPoller? || a.Listen? || a.PollerActs? }

  lemma PollerToldKeeps(s: System, a: Action)
    requires Enabled(s, a) && PollerMatches(s) && TouchesPoller(a) && !a.PollerActs?
    ensures PollerMatches(Next(s, a))
  {
    hide Poller.PoolInvariant, Poller.Fresh, Poller.Next, Poller.Enabled, Poller.LocalStep;
    if s.poller.Some? { CancelKeepsPool(s.poller.value); }
    if a.Listen? { FreshPool(a.started); }
  }

  lemma MainStepKeeps(s: System, a: Action)
    requires Enabled(s, a) && PollerMatches(s) && !TouchesPoller(a)
    ensures PollerMatches(Next(s, a))
  {
    hide Poller.PoolInvariant, Poller.Fresh, Poller.Next, Poller.Enabled, Poller.LocalStep;
    if a.JoinPoller? { StoppedEmpty(s.poller.value); }
  }

  lemma StepKeeps(s: System, a: Action)
    requires Enabled(s, a) && Invariant(s)
    ensures Invariant(Next(s, a))
  {
    hide EventsMatch, FlagsMatch, CleanupMatches, PollerMatches, Next, Enabled;
    StepKeepsFlags(s, a);
    StepKeepsCleanup(s, a);
    if a.PollerActs? {
      PollerStepKeeps(s, a.a);
    } else if TouchesPoller(a) {
      PollerToldKeeps(s, a);
    } else {
      MainStepKeeps(s, a);
    }
  }

  lemma {:induction false} RunKeeps(actions: seq<Action>)
    requires Run(actions).Some?
    ensures Invariant(Run(actions).value)
  {
    hide Next, Enabled;
    if |actions| > 0 {
      hide Invariant;
      RunKeeps(actions[..|actions| - 1]);
      StepKeeps(Run(actions[..|actions| - 1]).value, actions[|actions| - 1]);
    }
  }

  // ---------- shutdown order ----------

  lemma {:induction false} RunPrefix(actions: seq<Action>, a: Action)
    requires Run(actions + [a]).Some?
    ensures Run(actions).Some? && Enabled(Run(actions).value, a)
    ensures Run(actions + [a]).value == Next(Run(actions).value, a)
  {
    assert (actions + [a])[..|actions|] == actions;
    hide Enabled, Next;
  }

  ghost predicate ClosedInOrder(s: System) {
    exists d, c :: s.events ==
      [DockerClosed(d), StoreClosed(c)] + (if s.shuttingDown then [ShutdownCompleted(!s.runFailed && !c)] else [])
  }

  lemma ReturnedEvents(s: System)
    requires EventsMatch(s) && s.main.Returned?
    ensures ClosedInOrder(s)
  {
    assert s.events == [DockerClosed(s.events[0].failed), StoreClosed(s.closeFailed)]
      + (if s.shuttingDown then [ShutdownCompleted(!s.runFailed && !s.closeFailed)] else []);
  }

  /**
   When Run returns, the Docker client was closed once, then the store once, then completion logged if
   shutting down.
   */
  lemma ClosedOnceInOrder(actions: seq<Action>)
    requires Run(actions).Some? && Run(actions).value.main.Returned?
    ensures ClosedInOrder(Run(actions).value)
  {
    hide Run, ClosedInOrder, EventsMatch, FlagsMatch, CleanupMatches, PollerMatches;
    RunKeeps(actions);
    ReturnedEvents(Run(actions).value);
  }

  /** Listening failed. */
  ghost predicate ListenFailed(actions: seq<Action>) {
    exists k :: 0 <= k < |actions| && actions[k].Listen? && actions[k].fails
  }

  /** What the stages, results and flags say about the steps taken so far. */
  ghost predicate Remembers(s: System, actions: seq<Action>) {
    && (s.runFailed <==>
          ListenFailed(actions) || Drained(true) in actions || (s.http.Taken? && ServeReturns(true) in actions))
    && (s.http.Sent? ==> (s.http.failed <==> ServeReturns(true) in actions))
    && (s.http.NotServing? || s.http.Accepting? ==> ServeReturns(true) !in actions)
    && (ListenFailed(actions) ==> s.http.NotServing? && Finishing(s.main))
  }

  /** Where the server's result can be at each stage. */
  predicate ResultsTaken(s: System) {
    && (s.http.NotServing? ==> s.main.Starting? || Finishing(s.main))
    && (s.main.StoppingPoller? || s.main.JoiningPoller? || s.main.StoppingCleanup? || s.main.JoiningCleanup? ==>
          s.http.Taken?)
    && (Finishing(s.main) ==> s.http.Taken? || s.http.NotServing?)
  }

  ghost predicate CancelRemembered(s: System, actions: seq<Action>) {
    && (s.shuttingDown <==> SeeCancel in actions)
    && (s.http.NotServing? ==> SeeCancel !in actions)
  }

  ghost predicate ClosingsRemembered(s: System, actions: seq<Action>) {
    && (s.dockerFailed <==> CloseDocker(true) in actions)
    && (s.closeFailed <==> CloseStore(true) in actions)
    && (s.main.ClosingStore? || s.main.Completing? || s.main.Returned? ==>
          |s.events| >= 1 && s.events[0] == DockerClosed(s.dockerFailed))
    && (!s.main.ClosingStore? && !s.main.Completing? && !s.main.Returned? ==> CloseDocker(true) !in actions)
    && (!s.main.Completing? && !s.main.Returned? ==> CloseStore(true) !in actions)
    && (s.main.Returned? ==> s.main.failed == (s.runFailed || s.dockerFailed || s.closeFailed))
  }

  lemma ListenFailedNext(actions: seq<Action>, a: Action)
    ensures ListenFailed(actions + [a]) <==> ListenFailed(actions) || (a.Listen? && a.fails)
  {
    var more := actions + [a];
    assert more[|actions|] == a;
    if ListenFailed(actions) {
      var k :| 0 <= k < |actions| && actions[k].Listen? && actions[k].fails;
      assert more[k] == actions[k];
    }
  }

  lemma InNext<T>(s: seq<T>, x: T, y: T)
    ensures y in s + [x] <==> y in s || y == x
  {
  }

  lemma StepTakesResults(s: System, a: Action)
    requires ResultsTaken(s) && FlagsMatch(s) && Enabled(s, a)
    ensures ResultsTaken(Next(s, a))
  {
    hide Poller.Enabled, Poller.Next, Poller.Fresh;
  }

  lemma StepRemembers(s: System, actions: seq<Action>, a: Action)
    requires Remembers(s, actions) && ResultsTaken(s) && FlagsMatch(s) && Enabled(s, a)
    ensures Remembers(Next(s, a), actions + [a])
  {
    ListenFailedNext(actions, a);
    hide ListenFailed, Poller.Enabled, Poller.Next, Poller.Fresh;
    InNext(actions, a, Drained(true));
    InNext(actions, a, ServeReturns(true));
  }

  lemma StepRemembersCancel(s: System, actions: seq<Action>, a: Action)
    requires CancelRemembered(s, actions) && FlagsMatch(s) && Enabled(s, a)
    ensures CancelRemembered(Next(s, a), actions + [a])
  {
    hide Poller.Enabled, Poller.Next, Poller.Fresh;
    InNext(actions, a, SeeCancel);
  }

  lemma StepRemembersClosings(s: System, actions: seq<Action>, a: Action)
    requires ClosingsRemembered(s, actions) && EventsMatch(s) && Enabled(s, a)
    ensures ClosingsRemembered(Next(s, a), actions + [a])
  {
    hide Poller.Enabled, Poller.Next, Poller.Fresh;
    InNext(actions, a, CloseDocker(true));
    InNext(actions, a, CloseStore(true));
  }

  lemma {:induction false} RunRemembers(actions: seq<Action>)
    requires Run(actions).Some?
    ensures var s := Run(actions).value;
      ResultsTaken(s) && Remembers(s, actions) && CancelRemembered(s, actions) && ClosingsRemembered(s, actions)
  {
    hide Next, Enabled;
    if |actions| > 0 {
      hide ResultsTaken, Remembers, CancelRemembered, ClosingsRemembered;
      hide FlagsMatch, EventsMatch, CleanupMatches, PollerMatches;
      var p, a := actions[..|actions| - 1], actions[|actions| - 1];
      assert actions == p + [a];
      RunRemembers(p);
      RunKeeps(p);
      StepTakesResults(Run(p).value, a);
      StepRemembers(Run(p).value, p, a);
      StepRemembersCancel(Run(p).value, p, a);
      StepRemembersClosings(Run(p).value, p, a);
    }
  }

  /**
   When Run has returned, what it logged and whether it returned an error, from the steps of the run
   alone: completion is logged exactly after a cancellation was seen, and as clean exactly when the
   drain, the server and the store all ended without an error; a failed listen logs none.
   */
  lemma CompletionTellsTruth(actions: seq<Action>)
    requires Run(actions).Some? && Run(actions).value.main.Returned?
    ensures
      var s := Run(actions).value;
      var clean := Drained(true) !in actions && ServeReturns(true) !in actions && CloseStore(true) !in actions;
      && s.events == [DockerClosed(CloseDocker(true) in actions), StoreClosed(CloseStore(true) in actions)]
        + (if SeeCancel in actions then [ShutdownCompleted(clean)] else [])
      && (s.main.failed <==> ListenFailed(actions) || !clean || CloseDocker(true) in actions)
      && (ListenFailed(actions) ==> SeeCancel !in actions)
  {
    hide Run, PollerMatches, CleanupMatches, ListenFailed, EventsMatch, FlagsMatch, Remembers;
    hide ResultsTaken, ClosingsRemembered;
    RunKeeps(actions);
    RunRemembers(actions);
    ReturnedResults(Run(actions).value, actions);
    ReturnedClosings(Run(actions).value, actions);
  }

  lemma ReturnedResults(s: System, actions: seq<Action>)
    requires ResultsTaken(s) && Remembers(s, actions) && s.main.Returned?
    ensures s.runFailed <==> ListenFailed(actions) || Drained(true) in actions || ServeReturns(true) in actions
    ensures ListenFailed(actions) ==> s.http.NotServing?
  {
    hide ListenFailed;
  }

  lemma ReturnedClosings(s: System, actions: seq<Action>)
    requires ClosingsRemembered(s, actions) && EventsMatch(s) && s.main.Returned?
    ensures s.events == [DockerClosed(CloseDocker(true) in actions), StoreClosed(CloseStore(true) in actions)]
      + (if s.shuttingDown then [ShutdownCompleted(!s.runFailed && CloseStore(true) !in actions)] else [])
    ensures s.main.failed <==> s.runFailed || CloseDocker(true) in actions || CloseStore(true) in actions
  {
  }

  /** What the poller goroutine and its workers do, as against the handlers that share their state. */
  predicate PollerOwn(a: Poller.Action) {
    Poller.InPoll(a) || a.Tick? || a.Stop? || a.ListFails? || a.ListReturns?
  }

  /** A step of the poller goroutine, one of its workers, or the cleanup goroutine. */
  predicate TaskStep(a: Action) {
    a.CleanupTick? || a.CleanupRan? || a.CleanupStops? || (a.PollerActs? && PollerOwn(a.a))
  }

  lemma FinishingStays(s: System, a: Action)
    requires Invariant(s) && Enabled(s, a) && Finishing(s.main)
    ensures !TaskStep(a) && Finishing(Next(s, a).main)
  {
    if a.PollerActs? { GoneStaysGone(s.poller.value, a.a); }
    hide Poller.Next, Poller.Enabled, Poller.PoolInvariant, EventsMatch;
  }

  /** Once finish has begun no background task takes another step, and finish is never left. */
  lemma {:induction false} NoTaskAfterFinish(actions: seq<Action>, more: seq<Action>)
    requires Run(actions + more).Some? && Run(actions).Some? && Finishing(Run(actions).value.main)
    ensures Finishing(Run(actions + more).value.main)
    ensures forall k | 0 <= k < |more| :: !TaskStep(more[k])
    decreases |more|
  {
    hide TaskStep, Finishing, Run, Next, Enabled, Invariant;
    if |more| == 0 {
      assert actions + more == actions;
    } else {
      var p, a := more[..|more| - 1], more[|more| - 1];
      assert actions + more == (actions + p) + [a];
      RunPrefix(actions + p, a);
      NoTaskAfterFinish(actions, p);
      RunKeeps(actions + p);
      FinishingStays(Run(actions + p).value, a);
    }
  }

  /** A worker exists only while neither the Docker client nor the store has been closed. */
  lemma NoCheckAfterClose(actions: seq<Action>)
    requires Run(actions).Some? && Run(actions).value.poller.Some?
    requires Run(actions).value.poller.value.workers != []
    ensures Run(actions).value.events == [] && !PollerJoined(Run(actions).value.main)
  {
    RunKeeps(actions);
    hide Run, Poller.PoolInvariant;
  }

  // ---------- cleanup goes on ----------

  lemma RunOne(actions: seq<Action>, a: Action)
    requires Run(actions).Some? && Enabled(Run(actions).value, a)
    ensures Run(actions + [a]) == Some(Next(Run(actions).value, a))
  {
    assert (actions + [a])[..|actions|] == actions;
    hide Enabled, Next;
  }

  /** While the server serves uncancelled, another pass of the session cleanup can always be made. */
  lemma CleanupCanRun(actions: seq<Action>)
    requires Run(actions).Some? && Run(actions).value.main.Serving? && !Run(actions).value.cancelled
    ensures exists more :: Run(actions + more).Some? && CleanupTick in more && more[|more| - 1] == CleanupRan
  {
    RunKeeps(actions);
    var s := Run(actions).value;
    hide Run, EventsMatch, FlagsMatch, PollerMatches;
    if s.cleanup.Cleaning? {
      RunOne(actions, CleanupRan);
      TickAndRun(actions + [CleanupRan]);
      assert actions + [CleanupRan] + [CleanupTick, CleanupRan] == actions + [CleanupRan, CleanupTick, CleanupRan];
      assert CleanupTick in [CleanupRan, CleanupTick, CleanupRan];
    } else {
      TickAndRun(actions);
      assert CleanupTick in [CleanupTick, CleanupRan];
    }
  }

  lemma TickAndRun(actions: seq<Action>)
    requires Run(actions).Some? && Run(actions).value.cleanup.Selecting?
    ensures Run(actions + [CleanupTick, CleanupRan]).Some?
  {
    hide Run;
    RunOne(actions, CleanupTick);
    RunOne(actions + [CleanupTick], CleanupRan);
    assert actions + [CleanupTick] + [CleanupRan] == actions + [CleanupTick, CleanupRan];
  }

  // ---------- shutdown goes through ----------

  function Stage(m: Main): nat {
    match m
    case Starting => 12
    case Serving => 11
    case Draining => 10
    case AwaitingServe => 9
    case StoppingPoller => 8
    case JoiningPoller => 7
    case StoppingCleanup => 6
    case JoiningCleanup => 5
    case ClosingDocker => 4
    case ClosingStore => 3
    case Completing => 2
    case Returned(_) => 1
  }

  function PollerDistance(p: Poller.State): int {
    match p.phase
    case Stopped => 0
    case Waiting => 1
    case Due => 2
    case Polling(_, _, _) => 1 + Poller.StepsLeft(p)
  }

  /** Steps on the shortest way to the return of Run. */
  function Distance(s: System): int {
    Stage(s.main)
    + (if s.http.Accepting? then 1 else 0)
    + (if s.cleanup.Cleaning? then 2 else if s.cleanup.Selecting? then 1 else 0)
    + (if s.poller.Some? then PollerDistance(s.poller.value) else 0)
  }

  /** Cancelled, or past the point where only cancellation or a failing server ends the wait. */
  predicate Ending(s: System) { !s.main.Starting? && (s.cancelled || !s.main.Serving?) }

  ghost predicate Closer(s: System, a: Action) {
    Enabled(s, a) && Ending(Next(s, a)) && Distance(Next(s, a)) < Distance(s)
  }

  lemma DistanceNatural(s: System)
    requires Invariant(s)
    ensures Distance(s) >= 1
  {
    if s.poller.Some? && s.poller.value.phase.Polling? { StepsNatural(s.poller.value); }
    hide Poller.StepsLeft, Poller.PoolInvariant, EventsMatch;
  }

  lemma StepsNatural(p: Poller.State)
    requires Poller.PoolInvariant(p) && p.phase.Polling?
    ensures Poller.StepsLeft(p) >= 1
  {
    hide Poller.EachOnce;
  }

  lemma PollerCloser(p: Poller.State) returns (a: Poller.Action)
    requires Poller.PoolInvariant(p) && p.cancelled && !p.phase.Stopped?
    ensures Poller.Enabled(p, a) && !a.Cancel? && PollerDistance(Poller.Next(p, a)) < PollerDistance(p)
  {
    match p.phase {
      case Due => a := Poller.ListFails("");
      case Waiting => a := Poller.Stop;
      case Polling(_, _, _) =>
        Poller.MovesUnlessDeadlocked(p);
        a :| Poller.InPoll(a) && Poller.Enabled(p, a);
        Poller.StepUsesOne(p, a);
        StepsNatural(p);
        PollStepPhase(p, a);
        hide Poller.PoolInvariant, Poller.Next, Poller.Enabled, Poller.StepsLeft;
    }
  }

  lemma PollStepPhase(p: Poller.State, a: Poller.Action)
    requires p.phase.Polling? && Poller.InPoll(a) && Poller.Enabled(p, a)
    ensures var q := Poller.Next(p, a); q.phase.Polling? || (q.phase.Waiting? && Poller.StepsLeft(q) == 0)
  {
    hide Poller.LocalStep;
  }

  lemma PollerActsCloser(s: System, a: Poller.Action)
    requires s.poller.Some? && Poller.Enabled(s.poller.value, a) && !a.Cancel? && Ending(s)
    requires PollerDistance(Poller.Next(s.poller.value, a)) < PollerDistance(s.poller.value)
    ensures Closer(s, PollerActs(a))
  {
    hide Poller.Enabled, Poller.Next, PollerDistance, Stage;
  }

  lemma StopPollerCloser(s: System)
    requires Enabled(s, StopPoller)
    ensures Closer(s, StopPoller)
  {
    hide Poller.Fresh;
    assert Poller.StepsLeft(CancelPoller(s.poller.value)) == Poller.StepsLeft(s.poller.value);
    hide Poller.StepsLeft;
  }

  /** Each of Run's own steps, Serve returning, and the cleanup stopping or finishing a pass. */
  lemma StageCloser(s: System, a: Action)
    requires Enabled(s, a) && Ending(s)
    requires !a.Cancel? && !a.CancelReachesPoller? && !a.CancelReachesCleanup? && !a.Listen? && !a.StopPoller?
    requires !a.CleanupTick? && !a.PollerActs?
    ensures Closer(s, a)
  {
    hide PollerDistance;
  }

  /** From every state on the way out some step brings the return nearer. */
  lemma SomeStepCloser(s: System) returns (a: Action)
    requires Invariant(s) && Ending(s) && !s.main.Returned?
    ensures Closer(s, a)
  {
    hide Poller.PoolInvariant, PollerDistance, EventsMatch, Poller.Enabled, Poller.Next, Poller.Fresh, Closer;
    match s.main {
      case Serving => a := SeeCancel;
      case Draining => a := Drained(false);
      case AwaitingServe => a := if s.http.Accepting? then ServeReturns(false) else TakeServeResult;
      case StoppingPoller =>
        StopPollerCloser(s);
        a := StopPoller;
      case JoiningPoller =>
        if s.poller.value.phase.Stopped? {
          a := JoinPoller;
        } else {
          var p := PollerCloser(s.poller.value);
          PollerActsCloser(s, p);
          a := PollerActs(p);
        }
      case StoppingCleanup => a := StopCleanup;
      case JoiningCleanup =>
        a := if s.cleanup.Done? then JoinCleanup else if s.cleanup.Selecting? then CleanupStops else CleanupRan;
      case ClosingDocker => a := CloseDocker(false);
      case ClosingStore => a := CloseStore(false);
      case Completing => a := Complete;
    }
    if !a.StopPoller? && !a.PollerActs? { StageCloser(s, a); }
  }

  ghost predicate ReturnsBy(actions: seq<Action>, more: seq<Action>) {
    Run(actions + more).Some? && Run(actions + more).value.main.Returned?
  }

  /**
   After cancellation, or once the server has ended by itself, no interleaving leads to a state from
   which Run can no longer return.
   */
  lemma {:induction false} ShutdownCanFinish(actions: seq<Action>)
    requires Run(actions).Some? && Ending(Run(actions).value)
    ensures exists more :: ReturnsBy(actions, more)
    decreases if Run(actions).Some? then Distance(Run(actions).value) else 0
  {
    hide Run, Next, Enabled, Distance, Invariant, Ending;
    RunKeeps(actions);
    var s := Run(actions).value;
    if s.main.Returned? {
      assert actions + [] == actions;
      assert ReturnsBy(actions, []);
    } else {
      var a := SomeStepCloser(s);
      RunOne(actions, a);
      DistanceNatural(s);
      ShutdownCanFinish(actions + [a]);
      var more :| ReturnsBy(actions + [a], more);
      assert (actions + [a]) + more == actions + ([a] + more);
      assert ReturnsBy(actions, [a] + more);
    }
  }
}
