/**
 Diagnostics against failures. While only the poller writes the cache and each list names every
 server once, the diagnostics recorded for a server are one per maximal run of consecutive failed
 checks, and every failure of a run shows the reference of the run's diagnostic.
 */
module PollerRuns {
  import opened StatusCache
  import opened Poller
  import Recorder

  /** References recorded by failed checks of the server, in order. */
  function References(log: seq<Recorder.Record>, id: string): seq<string> {
    if |log| == 0 then []
    else
      var r := log[|log| - 1];
      References(log[..|log| - 1], id) + (if r.action == CHECK_ACTION && r.target == id then [r.id] else [])
  }

  /** The reference of each maximal run of failures, taken from the run's first. */
  function RunStarts(h: seq<Outcome>): seq<string> {
    if |h| == 0 then []
    else
      var last, before := h[|h| - 1], h[..|h| - 1];
      RunStarts(before) + (if last.Bad? && (|before| == 0 || before[|before| - 1].Good?) then [last.reference] else [])
  }

  /** Neighbouring failures show one reference. */
  predicate OneReferencePerRun(h: seq<Outcome>) {
    forall i | 0 <= i < |h| - 1 && h[i].Bad? && h[i + 1].Bad? :: h[i].reference == h[i + 1].reference
  }

  /** A status as the last completed check left it. */
  predicate Shows(status: Status, h: seq<Outcome>) {
    if |h| == 0 then status.state.NotChecked?
    else
      match h[|h| - 1]
      case Good => status.state.Connected?
      case Bad(reference) => status.state.Unavailable? && status.reference == reference && reference != ""
  }

  /** What concerns one server: its status, its completed checks, and the references recorded for it. */
  datatype View = View(status: Status, outcomes: seq<Outcome>, references: seq<string>)

  function ViewOf(s: State, id: string): View {
    View(Lookup(s.cache, id), OutcomesOf(s, id), References(s.log, id))
  }

  /** After cancellation an abandoned check leaves its server shown as checking. */
  predicate Shown(v: View, status: Status, cancelled: bool) {
    Shows(status, v.outcomes) || (cancelled && status.state.Checking?)
  }

  ghost predicate Balanced(v: View) {
    v.references == RunStarts(v.outcomes) && OneReferencePerRun(v.outcomes)
  }

  /** Between checks. */
  ghost predicate Settled(v: View, cancelled: bool) {
    Balanced(v) && Shown(v, v.status, cancelled)
  }

  /** During a check. */
  ghost predicate StageAgrees(v: View, w: Worker, cancelled: bool) {
    match w
    case Got(_) => Settled(v, cancelled)
    case Read(_, previous) => Balanced(v) && Shown(v, previous, cancelled)
    case Marked(_, previous) => Balanced(v) && Shown(v, previous, cancelled) && v.status.state.Checking?
    case Checked(_, previous, _) => Balanced(v) && Shown(v, previous, cancelled) && v.status.state.Checking?
    case Decided(_, previous, _, _) => Balanced(v) && Shows(previous, v.outcomes)
    case Recorded(_, _, reference) =>
      && reference != "" && v.references == RunStarts(v.outcomes) + [reference] && OneReferencePerRun(v.outcomes)
      && (|v.outcomes| == 0 || v.outcomes[|v.outcomes| - 1].Good?)
    case _ => Settled(v, cancelled)
  }

  /** Worker w is at work on this server. */
  predicate WorksOn(s: State, w: nat, id: string) {
    && s.phase.Polling? && w < |s.workers| && Busy(s.workers[w]) && s.workers[w].pos < |s.phase.ids|
    && ServerOf(s, w) == id
  }

  ghost predicate NobodyOn(s: State, id: string) { forall w: nat | w < |s.workers| :: !WorksOn(s, w, id) }

  predicate Distinct(ids: seq<string>) {
    forall i, j | 0 <= i < j < |ids| :: ids[i] != ids[j]
  }

  ghost predicate RunsInvariant(s: State) {
    && (s.phase.Polling? ==> Distinct(s.phase.ids))
    && (forall w: nat, id | WorksOn(s, w, id) :: StageAgrees(ViewOf(s, id), s.workers[w], s.cancelled))
    && (forall id | NobodyOn(s, id) :: Settled(ViewOf(s, id), s.cancelled))
  }

  /** Only the poller writes the cache, and every list names a server at most once. */
  predicate Quiet(a: Action) {
    && !a.HandlerConnected? && !a.HandlerUnavailable?
    && (a.ListReturns? ==> Distinct(a.ids))
  }

  lemma RunStartsNext(h: seq<Outcome>, o: Outcome)
    ensures RunStarts(h + [o]) ==
      RunStarts(h) + (if o.Bad? && (|h| == 0 || h[|h| - 1].Good?) then [o.reference] else [])
  {
    assert (h + [o])[..|h|] == h;
  }

  lemma OneReferenceNext(h: seq<Outcome>, o: Outcome)
    requires OneReferencePerRun(h)
    requires o.Bad? && |h| > 0 && h[|h| - 1].Bad? ==> o.reference == h[|h| - 1].reference
    ensures OneReferencePerRun(h + [o])
  {
  }

  lemma ReferencesNext(log: seq<Recorder.Record>, r: Recorder.Record, id: string)
    ensures
      References(log + [r], id)
      == References(log, id) + (if r.action == CHECK_ACTION && r.target == id then [r.id] else [])
  {
    assert (log + [r])[..|log|] == log;
  }

  /** The server's view after one step of its own check. */
  function NextView(v: View, e: Effect): View {
    View(if e.write.Some? then e.write.value else v.status,
         if e.outcome.Some? then v.outcomes + [e.outcome.value] else v.outcomes,
         if e.record.Some? then v.references + [e.record.value] else v.references)
  }

  /** One step of a check keeps its server's view in agreement. */
  lemma LocalAgrees(v: View, w: Worker, id: string, cancelled: bool, ok: bool, at: int, token: string)
    requires Busy(w) && StageAgrees(v, w, cancelled)
    ensures
      var e := LocalStep(w, id, v.status, cancelled, ok, at, token);
      StageAgrees(NextView(v, e), e.worker, cancelled)
  {
    hide RunStarts, OneReferencePerRun;
    var e := LocalStep(w, id, v.status, cancelled, ok, at, token);
    if e.outcome.Some? {
      RunStartsNext(v.outcomes, e.outcome.value);
      OneReferenceNext(v.outcomes, e.outcome.value);
    }
  }

  lemma AppliedView(s: State, w: nat, id: string, e: Effect, other: string)
    requires s.phase.Polling? && w < |s.workers| && Busy(s.workers[w])
    requires e.write.Some? ==> e.write.value.serverID == id
    ensures ViewOf(Applied(s, w, id, e), other) == if other == id then NextView(ViewOf(s, id), e) else ViewOf(s, other)
  {
    if e.record.Some? {
      ReferencesNext(s.log, Recorder.Record(e.record.value, CHECK_ACTION, id, ""), other);
    }
    hide References;
  }

  /** Distinct lists and one holder per position: no two workers are on one server. */
  lemma OnePerServer(s: State, v: nat, w: nat, id: string)
    requires PoolInvariant(s) && RunsInvariant(s) && WorksOn(s, v, id) && WorksOn(s, w, id)
    ensures v == w
  {
    var p, q := s.workers[v].pos, s.workers[w].pos;
    assert s.phase.ids[p] == s.phase.ids[q];
    assert p == q;
    assert s.finished[p] + Holders(s.workers, p) <= 1;
    hide EachOnce, RunsInvariant;
    if v < w { TwoHolders(s.workers, v, w); }
    if w < v { TwoHolders(s.workers, w, v); }
  }

  lemma LocalWrites(w: Worker, id: string, seen: Status, cancelled: bool, ok: bool, at: int, token: string)
    requires Busy(w)
    ensures var e := LocalStep(w, id, seen, cancelled, ok, at, token); e.write.Some? ==> e.write.value.serverID == id
  {
  }

  lemma WorkKeepsRuns(s: State, w: nat, ok: bool, at: int, token: string)
    requires Enabled(s, Work(w, ok, at, token)) && PoolInvariant(s) && RunsInvariant(s)
    ensures RunsInvariant(Next(s, Work(w, ok, at, token)))
  {
    var id := ServerOf(s, w);
    var e := WorkEffect(s, w, ok, at, token);
    var t := Applied(s, w, id, e);
    assert WorksOn(s, w, id);
    LocalAgrees(ViewOf(s, id), s.workers[w], id, s.cancelled, ok, at, token);
    LocalProgress(s.workers[w], id, Lookup(s.cache, id), s.cancelled, ok, at, token);
    LocalWrites(s.workers[w], id, Lookup(s.cache, id), s.cancelled, ok, at, token);
    forall other ensures ViewOf(t, other) == if other == id then NextView(ViewOf(s, id), e) else ViewOf(s, other) {
      AppliedView(s, w, id, e, other);
    }
    forall v: nat | WorksOn(s, v, id) ensures v == w { OnePerServer(s, v, w, id); }
    AppliedRuns(s, w, id, e, t);
  }

  lemma AppliedRuns(s: State, w: nat, id: string, e: Effect, t: State)
    requires RunsInvariant(s) && WorksOn(s, w, id) && t == Applied(s, w, id, e)
    requires StageAgrees(NextView(ViewOf(s, id), e), e.worker, s.cancelled)
    requires e.worker.Receiving? || (Busy(e.worker) && e.worker.pos == s.workers[w].pos)
    requires forall other :: ViewOf(t, other) == if other == id then NextView(ViewOf(s, id), e) else ViewOf(s, other)
    requires forall v: nat | WorksOn(s, v, id) :: v == w
    ensures RunsInvariant(t)
  {
    hide ViewOf, NextView;
    forall v: nat, other | WorksOn(t, v, other) ensures StageAgrees(ViewOf(t, other), t.workers[v], t.cancelled) {
      if v != w {
        assert WorksOn(s, v, other);
        assert other != id;
      } else {
        assert other == id;
      }
    }
    assert forall v: nat, other | WorksOn(s, v, other) && v != w :: WorksOn(t, v, other);
    assert Busy(e.worker) ==> WorksOn(t, w, id);
    forall other | NobodyOn(t, other) ensures Settled(ViewOf(t, other), t.cancelled) {
      if other == id {
        assert e.worker.Receiving?;
      } else {
        assert NobodyOn(s, other);
      }
    }
  }

  /** Nobody is at work on the server that is handed out next. */
  lemma NextUnheld(s: State)
    requires PoolInvariant(s) && RunsInvariant(s) && s.phase.Polling? && s.phase.next < |s.phase.ids|
    ensures NobodyOn(s, s.phase.ids[s.phase.next])
  {
    hide EachOnce, ViewOf, StageAgrees, Settled;
  }

  lemma DispatchKeepsRuns(s: State, w: nat)
    requires Enabled(s, Dispatch(w)) && PoolInvariant(s) && RunsInvariant(s)
    ensures RunsInvariant(Next(s, Dispatch(w)))
  {
    var t := Next(s, Dispatch(w));
    var id := s.phase.ids[s.phase.next];
    NextUnheld(s);
    forall other ensures ViewOf(t, other) == ViewOf(s, other) { SameView(s, t, other); }
    hide ViewOf, EachOnce, PoolInvariant, RunsInvariant;
    assert t.workers[w] == Got(s.phase.next) && WorksOn(t, w, id);
    DispatchedRuns(s, t, w, id);
  }

  lemma SameView(s: State, t: State, id: string)
    requires t.cache == s.cache && t.outcomes == s.outcomes && t.log == s.log
    ensures ViewOf(t, id) == ViewOf(s, id)
  {
  }

  /** One worker more, and it has just received a server that nobody was on. */
  lemma DispatchedRuns(s: State, t: State, w: nat, id: string)
    requires RunsInvariant(s) && NobodyOn(s, id) && WorksOn(t, w, id) && t.workers[w].Got? && t.cancelled == s.cancelled
    requires s.phase.Polling? && t.phase.ids == s.phase.ids
    requires forall other :: ViewOf(t, other) == ViewOf(s, other)
    requires forall v: nat, other | WorksOn(t, v, other) ::
      if v == w then other == id else WorksOn(s, v, other) && t.workers[v] == s.workers[v]
    requires forall v: nat, other | WorksOn(s, v, other) :: WorksOn(t, v, other)
    ensures RunsInvariant(t)
  {
    hide ViewOf, Balanced, Shown, ServerOf;
    forall v: nat, other | WorksOn(t, v, other) ensures StageAgrees(ViewOf(t, other), t.workers[v], t.cancelled) {
      if v == w { assert Settled(ViewOf(s, id), s.cancelled); }
    }
    forall other | NobodyOn(t, other) ensures Settled(ViewOf(t, other), t.cancelled) {
      assert NobodyOn(s, other) by { NobodyBefore(s, t, other); }
    }
  }

  lemma NobodyBefore(s: State, t: State, id: string)
    requires NobodyOn(t, id) && forall v: nat, other | WorksOn(s, v, other) :: WorksOn(t, v, other)
    ensures NobodyOn(s, id)
  {
    forall v: nat | v < |s.workers| ensures !WorksOn(s, v, id) {
      assert v < |t.workers| ==> !WorksOn(t, v, id);
    }
  }

  /** Steps that leave who works on what, and every view, alone. */
  lemma SameViewsKeepRuns(s: State, t: State)
    requires RunsInvariant(s)
    requires t.phase.Polling? ==> Distinct(t.phase.ids)
    requires forall id :: ViewOf(t, id) == ViewOf(s, id)
    requires s.cancelled ==> t.cancelled
    requires forall w: nat, id | WorksOn(t, w, id) :: WorksOn(s, w, id) && t.workers[w] == s.workers[w]
    requires forall w: nat, id | WorksOn(s, w, id) :: WorksOn(t, w, id)
    ensures RunsInvariant(t)
  {
    hide ViewOf, Balanced;
    forall id | NobodyOn(t, id) ensures Settled(ViewOf(t, id), t.cancelled) {
      assert NobodyOn(s, id);
    }
  }

  lemma OtherRecordViews(s: State, r: Recorder.Record)
    requires r.action != CHECK_ACTION
    ensures forall id :: ViewOf(s.(log := s.log + [r]), id) == ViewOf(s, id)
  {
    forall id ensures ViewOf(s.(log := s.log + [r]), id) == ViewOf(s, id) {
      ReferencesNext(s.log, r, id);
    }
  }

  lemma IdleStart(s: State, ids: seq<string>)
    requires s.phase.Due? && s.workers == []
    ensures forall w: nat, id :: !WorksOn(s, w, id) && !WorksOn(Next(s, ListReturns(ids)), w, id)
  {
  }

  lemma StepKeepsRuns(s: State, a: Action)
    requires Enabled(s, a) && Quiet(a) && PoolInvariant(s) && RunsInvariant(s)
    ensures RunsInvariant(Next(s, a))
  {
    match a {
      case Dispatch(w) => DispatchKeepsRuns(s, w);
      case Work(w, ok, at, token) => WorkKeepsRuns(s, w, ok, at, token);
      case ListFails(token) => QuietRecords(s, a, Recorder.Record(Reference(token), LIST_ACTION, "", ""));
      case OtherRecord(r) => QuietRecords(s, a, r);
      case HandlerRecords(id, action, token) => QuietRecords(s, a, Recorder.Record(Reference(token), action, id, ""));
      case ListReturns(ids) =>
        IdleStart(s, ids);
        hide References, EachOnce, RunsInvariant, WorksOn;
        SameViewsKeepRuns(s, Next(s, a));
      case Cancel => SameWorkKeepsRuns(s, a);
      case Tick => SameWorkKeepsRuns(s, a);
      case Stop => SameWorkKeepsRuns(s, a);
      case Close => SameWorkKeepsRuns(s, a);
      case Exit(_) => SameWorkKeepsRuns(s, a);
      case EndPoll => SameWorkKeepsRuns(s, a);
    }
  }

  lemma SameWorkKeepsRuns(s: State, a: Action)
    requires Enabled(s, a) && PoolInvariant(s) && RunsInvariant(s)
    requires a.Cancel? || a.Tick? || a.Stop? || a.Close? || a.Exit? || a.EndPoll?
    ensures RunsInvariant(Next(s, a))
  {
    hide References, EachOnce;
    SameViewsKeepRuns(s, Next(s, a));
  }

  lemma QuietRecords(s: State, a: Action, r: Recorder.Record)
    requires Enabled(s, a) && PoolInvariant(s) && RunsInvariant(s) && r.action != CHECK_ACTION
    requires a.ListFails? || a.OtherRecord? || a.HandlerRecords?
    requires Next(s, a).log == s.log + [r]
    ensures RunsInvariant(Next(s, a))
  {
    OtherRecordViews(s, r);
    var t := Next(s, a);
    assert forall id :: ViewOf(t, id) == ViewOf(s.(log := s.log + [r]), id);
    hide References, EachOnce, RunsInvariant;
    SameViewsKeepRuns(s, t);
  }

  lemma NothingRun(s: State)
    requires Fresh(s)
    ensures RunsInvariant(s) && PoolInvariant(s)
  {
  }

  lemma {:induction false} RunKeepsRuns(start: State, actions: seq<Action>)
    requires Fresh(start) && Run(start, actions).Some? && forall k | 0 <= k < |actions| :: Quiet(actions[k])
    ensures RunsInvariant(Run(start, actions).value)
  {
    hide RunsInvariant, PoolInvariant, Next, Enabled, Quiet;
    NothingRun(start);
    if |actions| > 0 {
      var p := actions[..|actions| - 1];
      RunKeepsRuns(start, p);
      RunKeepsPool(start, p);
      StepKeepsRuns(Run(start, p).value, actions[|actions| - 1]);
    }
  }

  /**
   Over any number of polls, with only the poller writing the cache: between checks of a server its
   diagnostics are exactly one per maximal run of failed checks, in order, and all the failures of
   a run showed that run's reference.
   */
  lemma OneDiagnosticPerRun(start: State, actions: seq<Action>, id: string)
    requires Fresh(start) && Run(start, actions).Some? && forall k | 0 <= k < |actions| :: Quiet(actions[k])
    requires NobodyOn(Run(start, actions).value, id)
    ensures
      var s := Run(start, actions).value;
      && References(s.log, id) == RunStarts(OutcomesOf(s, id))
      && OneReferencePerRun(OutcomesOf(s, id))
  {
    RunKeepsRuns(start, actions);
    hide Run;
    assert Settled(ViewOf(Run(start, actions).value, id), Run(start, actions).value.cancelled);
  }

  /** Maximal runs of failures. */
  function RunCount(h: seq<Outcome>): nat {
    if |h| == 0 then 0
    else RunCount(h[..|h| - 1]) + (if h[|h| - 1].Bad? && (|h| == 1 || h[|h| - 2].Good?) then 1 else 0)
  }

  lemma {:induction false} RunCountIsStarts(h: seq<Outcome>)
    ensures |RunStarts(h)| == RunCount(h)
  {
    if |h| > 0 { RunCountIsStarts(h[..|h| - 1]); }
  }

  /** In particular their number is the number of runs. */
  lemma DiagnosticsCountRuns(start: State, actions: seq<Action>, id: string)
    requires Fresh(start) && Run(start, actions).Some? && forall k | 0 <= k < |actions| :: Quiet(actions[k])
    requires NobodyOn(Run(start, actions).value, id)
    ensures
      var s := Run(start, actions).value;
      |References(s.log, id)| == RunCount(OutcomesOf(s, id))
  {
    OneDiagnosticPerRun(start, actions, id);
    hide Run;
    RunCountIsStarts(OutcomesOf(Run(start, actions).value, id));
  }

  /** And any two failures of one run showed the same reference. */
  lemma RunSharesReference(start: State, actions: seq<Action>, id: string, i: nat, j: nat)
    requires Fresh(start) && Run(start, actions).Some? && forall k | 0 <= k < |actions| :: Quiet(actions[k])
    requires NobodyOn(Run(start, actions).value, id)
    requires i <= j < |OutcomesOf(Run(start, actions).value, id)|
    requires forall k | i <= k <= j :: OutcomesOf(Run(start, actions).value, id)[k].Bad?
    ensures
      var h := OutcomesOf(Run(start, actions).value, id);
      h[i].reference == h[j].reference
  {
    OneDiagnosticPerRun(start, actions, id);
    var h := OutcomesOf(Run(start, actions).value, id);
    hide Run;
    SameAlongRun(h, i, j);
  }

  lemma {:induction false} SameAlongRun(h: seq<Outcome>, i: nat, j: nat)
    requires i <= j < |h| && OneReferencePerRun(h) && forall k | i <= k <= j :: h[k].Bad?
    ensures h[i].reference == h[j].reference
    decreases j - i
  {
    if i < j {
      SameAlongRun(h, i, j - 1);
      assert h[j - 1].Bad? && h[j].Bad?;
      assert h[j - 1].reference == h[j - 1 + 1].reference;
    }
  }
}
