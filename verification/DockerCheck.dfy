/**
 checkDockerStatus and the handlers' reporting as methods on the shared cache and recorder, each
 proved to do what the poller machine's steps do when nothing comes in between.
 */
module DockerCheck {
  import opened Poller
  import S = StatusCache
  import R = Recorder

  /** Worker w's steps, one after another, until it waits for a job again. */
  function Alone(s: State, w: nat, ok: bool, at: int, token: string): State
    requires w < |s.workers|
    decreases Weight(s.workers[w])
  {
    if !Enabled(s, Work(w, ok, at, token)) then s
    else
      LocalProgress(s.workers[w], ServerOf(s, w), S.Lookup(s.cache, ServerOf(s, w)), s.cancelled, ok, at, token);
      Alone(Next(s, Work(w, ok, at, token)), w, ok, at, token)
  }

  /** A worker that has just received a server which the caches of s show as they are. */
  predicate About(s: State, w: nat, id: string, statuses: S.Statuses, log: seq<R.Record>, cancelled: bool) {
    && s.phase.Polling? && w < |s.workers| && s.workers[w].Got? && s.workers[w].pos < |s.phase.ids|
    && s.phase.ids[s.workers[w].pos] == id && s.cache == statuses && s.log == log && s.cancelled == cancelled
  }

  lemma AppliedKeeps(s: State, w: nat, id: string, e: Effect)
    requires w < |s.workers| && Busy(s.workers[w])
    ensures
      var t := Applied(s, w, id, e);
      t.phase == s.phase && t.cancelled == s.cancelled && |t.workers| == |s.workers| && t.workers[w] == e.worker
  {
  }

  /** One step of the run, in terms of the worker's local step. */
  lemma StepTo(s: State, w: nat, id: string, ok: bool, at: int, token: string) returns (t: State)
    requires s.phase.Polling? && w < |s.workers| && Busy(s.workers[w]) && s.workers[w].pos < |s.phase.ids|
    requires s.phase.ids[s.workers[w].pos] == id
    ensures t == Applied(s, w, id, LocalStep(s.workers[w], id, S.Lookup(s.cache, id), s.cancelled, ok, at, token))
    ensures Alone(s, w, ok, at, token) == Alone(t, w, ok, at, token)
  {
    hide LocalStep, Applied;
    t := Applied(s, w, id, LocalStep(s.workers[w], id, S.Lookup(s.cache, id), s.cancelled, ok, at, token));
    AppliedKeeps(s, w, id, LocalStep(s.workers[w], id, S.Lookup(s.cache, id), s.cancelled, ok, at, token));
  }

  lemma AloneDone(s: State, w: nat, ok: bool, at: int, token: string)
    requires w < |s.workers| && s.workers[w].Receiving?
    ensures Alone(s, w, ok, at, token) == s
  {
  }

  /** Up to the end of the Docker call: the server shows as checking and nothing is recorded. */
  lemma AloneToCheck(s: State, w: nat, id: string, ok: bool, at: int, token: string) returns (t: State)
    requires About(s, w, id, s.cache, s.log, s.cancelled)
    ensures
      && t.phase == s.phase && t.cancelled == s.cancelled && w < |t.workers|
      && t.workers[w] == Checked(s.workers[w].pos, S.Lookup(s.cache, id), ok)
      && t.cache == S.MarkedChecking(s.cache, id) && t.log == s.log
    ensures Alone(s, w, ok, at, token) == Alone(t, w, ok, at, token)
  {
    hide Alone;
    t := StepTo(s, w, id, ok, at, token);
    t := StepTo(t, w, id, ok, at, token);
    t := StepTo(t, w, id, ok, at, token);
  }

  /** What a whole check leaves in the cache and the log. */
  lemma AloneEnds(s: State, w: nat, id: string, ok: bool, at: int, token: string)
    requires About(s, w, id, s.cache, s.log, s.cancelled)
    ensures
      var previous := S.Lookup(s.cache, id);
      var checking := S.MarkedChecking(s.cache, id);
      var t := Alone(s, w, ok, at, token);
      && (s.cancelled ==> t.cache == checking && t.log == s.log)
      && (!s.cancelled && ok ==> t.cache == S.MarkedConnected(checking, id, at) && t.log == s.log)
      && (!s.cancelled && !ok && previous.state.Unavailable? && previous.reference != "" ==>
            t.cache == S.MarkedUnavailable(checking, id, at, previous.reference) && t.log == s.log)
      && (!s.cancelled && !ok && !(previous.state.Unavailable? && previous.reference != "") ==>
            t.cache == S.MarkedUnavailable(checking, id, at, Reference(token))
            && t.log == s.log + [R.Record(Reference(token), CHECK_ACTION, id, "")])
  {
    hide Alone, S.Lookup;
    var t := AloneToCheck(s, w, id, ok, at, token);
    t := StepTo(t, w, id, ok, at, token);
    if !s.cancelled {
      t := StepTo(t, w, id, ok, at, token);
      if !t.workers[w].Receiving? { t := StepTo(t, w, id, ok, at, token); }
    }
    AloneDone(t, w, ok, at, token);
  }

  /** How a handler's Docker operation ended; expected errors are shown and not recorded. */
  datatype OperationResult = Succeeded | Expected | Failed

  class Application {
    const statuses: S.StatusCache
    const diagnostics: R.Recorder

    ghost predicate Valid()
      reads diagnostics, diagnostics.records
    {
      diagnostics.Valid()
    }

    constructor (statuses: S.StatusCache, diagnostics: R.Recorder)
      requires diagnostics.Valid()
      ensures Valid() && this.statuses == statuses && this.diagnostics == diagnostics
    {
      this.statuses := statuses;
      this.diagnostics := diagnostics;
    }

    /** newReference's randomness is token; the record is what the log keeps of the input. */
    method RecordDockerStatusFailure(serverID: string, action: string, token: string) returns (reference: string)
      requires Valid()
      modifies diagnostics, diagnostics.records
      ensures Valid() && reference == Reference(token) && reference != ""
      ensures diagnostics.history == old(diagnostics.history) + [R.Record(reference, action, serverID, "")]
    {
      reference := Reference(token);
      diagnostics.AppendRecord(R.Record(reference, action, serverID, ""));
    }

    /**
     ok is what CheckStatus returns, cancelled whether the context has ended by then, at the clock.
     The cache and the log end as the machine's worker leaves them.
     */
    method CheckDockerStatus(serverID: string, ok: bool, cancelled: bool, at: int, token: string)
      requires Valid()
      modifies statuses, diagnostics, diagnostics.records
      ensures Valid()
      ensures forall s: State, w: nat ::
        About(s, w, serverID, old(statuses.statuses), old(diagnostics.history), cancelled) ==>
          Alone(s, w, ok, at, token).cache == statuses.statuses && Alone(s, w, ok, at, token).log == diagnostics.history
      ensures forall other | other != serverID ::
        S.Lookup(statuses.statuses, other) == S.Lookup(old(statuses.statuses), other)
      ensures
        var before := S.Lookup(old(statuses.statuses), serverID);
        var after := S.Lookup(statuses.statuses, serverID);
        var reused := before.state.Unavailable? && before.reference != "";
        && after == (
             if cancelled then S.Status(serverID, S.Checking, 0, "")
             else if ok then S.Status(serverID, S.Connected, at, "")
             else S.Status(serverID, S.Unavailable, at, if reused then before.reference else "err_" + token))
        && diagnostics.history == (
             if cancelled || ok || reused then old(diagnostics.history)
             else old(diagnostics.history) + [R.Record("err_" + token, "check_docker_status", serverID, "")])
    {
      hide Alone, R.Last;
      ghost var before, log := statuses.statuses, diagnostics.history;
      forall s: State, w: nat | About(s, w, serverID, before, log, cancelled) {
        AloneEnds(s, w, serverID, ok, at, token);
      }
      var previous := statuses.Get(serverID);
      statuses.MarkChecking(serverID);
      if cancelled { return; }
      if ok {
        statuses.MarkConnected(serverID, at);
        return;
      }
      if previous.state.Unavailable? && previous.reference != "" {
        statuses.MarkUnavailable(serverID, at, previous.reference);
        return;
      }
      var reference := RecordDockerStatusFailure(serverID, CHECK_ACTION, token);
      statuses.MarkUnavailable(serverID, at, reference);
    }

    /** The cache writes of HandleList, HandleTestConnection and renderOperationError. */
    method FinishOperation(serverID: string, action: string, result: OperationResult, at: int, token: string)
      requires Valid() && action != CHECK_ACTION
      modifies statuses, diagnostics, diagnostics.records
      ensures Valid()
      ensures S.Lookup(statuses.statuses, serverID) ==
        match result
        case Succeeded => S.Status(serverID, S.Connected, at, "")
        case Expected => S.Lookup(old(statuses.statuses), serverID)
        case Failed => S.Status(serverID, S.Unavailable, at, "err_" + token)
      ensures forall other | other != serverID ::
        S.Lookup(statuses.statuses, other) == S.Lookup(old(statuses.statuses), other)
      ensures diagnostics.history ==
        if result.Failed? then old(diagnostics.history) + [R.Record("err_" + token, action, serverID, "")]
        else old(diagnostics.history)
      ensures forall s: State |
        s.cache == old(statuses.statuses) && s.log == old(diagnostics.history) && s.pending == [] ::
        var t := match result
          case Succeeded => Next(s, HandlerConnected(serverID, at))
          case Expected => s
          case Failed => Next(Next(s, HandlerRecords(serverID, action, token)), HandlerUnavailable(0, at));
        t.cache == statuses.statuses && t.log == diagnostics.history
    {
      hide R.Last;
      match result {
        case Succeeded => statuses.MarkConnected(serverID, at);
        case Expected =>
        case Failed =>
          var reference := RecordDockerStatusFailure(serverID, action, token);
          statuses.MarkUnavailable(serverID, at, reference);
      }
    }
  }
}
