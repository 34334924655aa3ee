/**
 What the poller goes on to do: every later poll can check every listed server, every failed listing
 is recorded, and references stay distinct while their tokens do.
 */
module PollerProgress {
  import opened Wrappers
  import opened Counting
  import opened Poller
  import Recorder
  import StatusCache

  lemma RunOne(s: State, actions: seq<Action>, a: Action)
    requires Run(s, actions).Some? && Enabled(Run(s, actions).value, a)
    ensures Run(s, actions + [a]) == Some(Next(Run(s, actions).value, a))
  {
    assert (actions + [a])[..|actions|] == actions;
    hide Enabled, Next;
  }

  lemma {:induction false} RunOn(s: State, actions: seq<Action>, more: seq<Action>)
    requires Run(s, actions).Some? && Run(Run(s, actions).value, more).Some?
    ensures Run(s, actions + more) == Run(Run(s, actions).value, more)
    decreases |more|
  {
    hide Enabled, Next;
    if |more| == 0 {
      assert actions + more == actions;
    } else {
      var p, a := more[..|more| - 1], more[|more| - 1];
      RunOn(s, actions, p);
      assert actions + more == (actions + p) + [a];
      RunOne(s, actions + p, a);
    }
  }

  // ---------- every listed server can be checked ----------

  /** The poll hands out jobs, worker 0 waits for one, and nobody has cancelled. */
  predicate Handing(s: State) {
    s.phase.Polling? && s.phase.open && |s.workers| >= 1 && s.workers[0].Receiving? && !s.cancelled
  }

  /** One check that finds the server well, from its dispatch on. */
  function OneCheck(): seq<Action> {
    [Dispatch(0), Work(0, true, 0, ""), Work(0, true, 0, ""), Work(0, true, 0, ""), Work(0, true, 0, ""),
     Work(0, true, 0, "")]
  }

  lemma NextChecked(s: State) returns (t: State)
    requires Handing(s) && s.phase.next < |s.phase.ids|
    ensures Run(s, OneCheck()) == Some(t)
    ensures Handing(t) && t.phase.ids == s.phase.ids && t.phase.next == s.phase.next + 1
    ensures
      var id := s.phase.ids[s.phase.next];
      t.outcomes == s.outcomes[id := OutcomesOf(s, id) + [Good]]
  {
    hide Run;
    NoSteps(s);
    RunOne(s, [], Dispatch(0));
    t := Next(s, Dispatch(0));
    var steps := [] + [Dispatch(0)];
    var id := s.phase.ids[s.phase.next];
    t, steps := WorkOn(s, steps, t, id);
    t, steps := WorkOn(s, steps, t, id);
    t, steps := WorkOn(s, steps, t, id);
    t, steps := WorkOn(s, steps, t, id);
    t, steps := WorkOn(s, steps, t, id);
    assert steps == OneCheck();
  }

  lemma NoSteps(s: State)
    ensures Run(s, []) == Some(s)
  {
  }

  /** One more step of worker 0's check of this server. */
  lemma WorkOn(s: State, steps: seq<Action>, t: State, id: string) returns (u: State, more: seq<Action>)
    requires Run(s, steps) == Some(t)
    requires t.phase.Polling? && |t.workers| >= 1 && Busy(t.workers[0])
    requires t.workers[0].pos < |t.phase.ids| && t.phase.ids[t.workers[0].pos] == id
    ensures more == steps + [Work(0, true, 0, "")] && Run(s, more) == Some(u)
    ensures
      var e := LocalStep(t.workers[0], id, StatusCache.Lookup(t.cache, id), t.cancelled, true, 0, "");
      && u.workers == t.workers[0 := e.worker] && u.phase == t.phase && u.cancelled == t.cancelled
      && u.outcomes == (if e.outcome.Some? then t.outcomes[id := OutcomesOf(t, id) + [e.outcome.value]] else t.outcomes)
  {
    hide LocalStep, Run;
    RunOne(s, steps, Work(0, true, 0, ""));
    u := Next(t, Work(0, true, 0, ""));
    more := steps + [Work(0, true, 0, "")];
  }

  /** These steps complete one more check of the server. */
  ghost predicate Checks(s: State, more: seq<Action>, id: string) {
    Run(s, more).Some? && |OutcomesOf(Run(s, more).value, id)| > |OutcomesOf(s, id)|
  }

  lemma {:induction false} PositionChecked(s: State, p: nat)
    requires Handing(s) && s.phase.next <= p < |s.phase.ids|
    ensures exists more :: Checks(s, more, s.phase.ids[p])
    decreases p - s.phase.next
  {
    hide Run;
    var t := NextChecked(s);
    if s.phase.next == p {
      assert Checks(s, OneCheck(), s.phase.ids[p]);
    } else {
      PositionChecked(t, p);
      var more :| Checks(t, more, s.phase.ids[p]);
      RunOn(s, OneCheck(), more);
      assert Checks(s, OneCheck() + more, s.phase.ids[p]);
    }
  }

  /**
   From every reachable state in which the poller waits uncancelled, with concurrency at least one,
   and for every list and position, some continuation completes a check of the server listed there.
   */
  lemma LaterPollChecks(start: State, before: seq<Action>, ids: seq<string>, p: nat)
    requires Fresh(start) && start.concurrency >= 1 && Run(start, before).Some? && p < |ids|
    requires Run(start, before).value.phase.Waiting? && !Run(start, before).value.cancelled
    ensures exists more ::
      && Run(start, before + more).Some?
      && |OutcomesOf(Run(start, before + more).value, ids[p])| > |OutcomesOf(Run(start, before).value, ids[p])|
  {
    RunKeepsPool(start, before) by { FreshInvariant(start); }
    var s := Run(start, before).value;
    var t := PollStarts(s, ids);
    hide Run;
    PositionChecked(t, p);
    var more :| Checks(t, more, ids[p]);
    RunOn(s, [Tick, ListReturns(ids)], more);
    RunOn(start, before, [Tick, ListReturns(ids)] + more);
  }

  lemma PollStarts(s: State, ids: seq<string>) returns (t: State)
    requires s.phase.Waiting? && !s.cancelled && s.concurrency >= 1 && |ids| >= 1
    ensures Run(s, [Tick, ListReturns(ids)]) == Some(t)
    ensures Handing(t) && t.phase.ids == ids && t.phase.next == 0 && t.outcomes == s.outcomes
  {
    NoSteps(s);
    RunOne(s, [], Tick);
    assert [] + [Tick] == [Tick];
    RunOne(s, [Tick], ListReturns(ids));
    hide Run;
    t := Next(Next(s, Tick), ListReturns(ids));
    assert [Tick] + [ListReturns(ids)] == [Tick, ListReturns(ids)];
  }

  // ---------- failed listings ----------

  function IsListing(): Recorder.Record -> bool { (r: Recorder.Record) => r.action == "list_docker_servers" }

  /** A failed listing, or some other component's record that calls itself one. */
  function RecordsListing(): Action -> bool {
    (a: Action) => a.ListFails?
      || (a.OtherRecord? && a.record.action == "list_docker_servers")
      || (a.HandlerRecords? && a.action == "list_docker_servers")
  }

  lemma StepRecordsListing(s: State, a: Action)
    requires Enabled(s, a)
    ensures Count(Next(s, a).log, IsListing()) == Count(s.log, IsListing()) + if RecordsListing()(a) then 1 else 0
  {
    hide Count;
    match a {
      case ListFails(token) => CountNext(s.log, Recorder.Record(Reference(token), LIST_ACTION, "", ""), IsListing());
      case Work(w, ok, at, token) =>
        CountNext(s.log, Recorder.Record(Reference(token), CHECK_ACTION, ServerOf(s, w), ""), IsListing());
      case HandlerRecords(id, action, token) =>
        CountNext(s.log, Recorder.Record(Reference(token), action, id, ""), IsListing());
      case OtherRecord(r) => CountNext(s.log, r, IsListing());
      case _ =>
    }
  }

  /** Every failed listing leaves exactly one diagnostic. */
  lemma {:induction false} ListFailuresRecorded(start: State, actions: seq<Action>)
    requires Fresh(start) && Run(start, actions).Some?
    ensures Count(Run(start, actions).value.log, IsListing()) == Count(actions, RecordsListing())
  {
    hide Enabled, Next;
    if |actions| > 0 {
      hide Count, RecordsListing, IsListing;
      var p, a := actions[..|actions| - 1], actions[|actions| - 1];
      ListFailuresRecorded(start, p);
      assert actions == p + [a];
      CountNext(p, a, RecordsListing());
      StepRecordsListing(Run(start, p).value, a);
    }
  }

  // ---------- distinct references ----------

  lemma ReferenceInjective(x: string, y: string)
    ensures Reference(x) == Reference(y) <==> x == y
    ensures Reference(x) != ""
  {
    assert Reference(x)[4..] == x && Reference(y)[4..] == y;
  }

  /** The token an action has at hand for a new reference. */
  function Token(a: Action): Option<string> {
    match a
    case ListFails(token) => Some(token)
    case Work(_, _, _, token) => Some(token)
    case HandlerRecords(_, _, token) => Some(token)
    case OtherRecord(r) => if |r.id| >= 4 && r.id[..4] == "err_" then Some(r.id[4..]) else None
    case _ => None
  }

  /** No token is drawn twice, and other components' references are made the same way. */
  ghost predicate FreshTokens(actions: seq<Action>) {
    && (forall i, j | 0 <= i < j < |actions| && Token(actions[i]).Some? :: Token(actions[i]) != Token(actions[j]))
    && (forall i | 0 <= i < |actions| && actions[i].OtherRecord? :: Token(actions[i]).Some?)
  }

  /** The reference is made from some action's token. */
  ghost predicate FromToken(id: string, actions: seq<Action>) {
    exists i :: 0 <= i < |actions| && Token(actions[i]).Some? && id == Reference(Token(actions[i]).value)
  }

  ghost predicate FromTokens(log: seq<Recorder.Record>, actions: seq<Action>) {
    forall k | 0 <= k < |log| :: FromToken(log[k].id, actions)
  }

  lemma StepAddsToken(s: State, a: Action)
    requires Enabled(s, a) && (a.OtherRecord? ==> Token(a).Some?)
    ensures var log := Next(s, a).log;
      log == s.log || (log == s.log + [log[|s.log|]] && Token(a).Some? && log[|s.log|].id == Reference(Token(a).value))
  {
  }

  lemma {:induction false} RunFromTokens(start: State, actions: seq<Action>)
    requires Fresh(start) && Run(start, actions).Some? && FreshTokens(actions)
    ensures FromTokens(Run(start, actions).value.log, actions)
    ensures Recorder.Distinct(Run(start, actions).value.log)
  {
    hide Enabled, Next, Token;
    if |actions| > 0 {
      var p, a := actions[..|actions| - 1], actions[|actions| - 1];
      assert actions == p + [a];
      RunFromTokens(start, p);
      var s := Run(start, p).value;
      StepAddsToken(s, a);
      var log := Run(start, actions).value.log;
      hide Run;
      if log != s.log { NewToken(s.log, p, a, log[|s.log|]); } else { OldTokens(s.log, p, a); }
    }
  }

  lemma OldToken(id: string, p: seq<Action>, a: Action)
    requires FromToken(id, p)
    ensures FromToken(id, p + [a])
  {
    hide Token;
    var i :| 0 <= i < |p| && Token(p[i]).Some? && id == Reference(Token(p[i]).value);
    assert (p + [a])[i] == p[i];
  }

  lemma OldTokens(log: seq<Recorder.Record>, p: seq<Action>, a: Action)
    requires FromTokens(log, p)
    ensures FromTokens(log, p + [a])
  {
    hide FromToken;
    forall k | 0 <= k < |log| ensures FromToken(log[k].id, p + [a]) { OldToken(log[k].id, p, a); }
  }

  lemma NewToken(log: seq<Recorder.Record>, p: seq<Action>, a: Action, r: Recorder.Record)
    requires FromTokens(log, p) && Recorder.Distinct(log) && FreshTokens(p + [a])
    requires Token(a).Some? && r.id == Reference(Token(a).value)
    ensures FromTokens(log + [r], p + [a]) && Recorder.Distinct(log + [r])
  {
    hide Token;
    OldTokens(log, p, a);
    assert (p + [a])[|p|] == a;
    forall k | 0 <= k < |log| ensures log[k].id != r.id {
      assert FromToken(log[k].id, p);
      var i :| 0 <= i < |p| && Token(p[i]).Some? && log[k].id == Reference(Token(p[i]).value);
      assert (p + [a])[i] == p[i];
      ReferenceInjective(Token(p[i]).value, Token(a).value);
    }
  }
}
