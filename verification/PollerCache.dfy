/**
 What the status cache shows, under every interleaving of poller workers and HTTP handlers: each
 status is its own server's, and carries a reference exactly when unavailable, one that the
 recorder issued for that very server.
 */
module PollerCache {
  import opened Wrappers
  import opened StatusCache
  import opened Poller
  import Recorder

  /** The recorder issued this reference for an input targeting this server. */
  ghost predicate Issued(log: seq<Recorder.Record>, reference: string, target: string) {
    exists i :: 0 <= i < |log| && log[i].id == reference && log[i].target == target
  }

  /** A status that may be shown for the server. */
  ghost predicate Sound(log: seq<Recorder.Record>, status: Status, id: string) {
    && status.serverID == id
    && (status.state.Unavailable? <==> status.reference != "")
    && (status.state.Unavailable? ==> Issued(log, status.reference, id))
  }

  ghost predicate CacheSound(log: seq<Recorder.Record>, cache: Statuses) {
    forall k | k in cache :: Sound(log, cache[k], k)
  }

  /** What a worker carries for its server is sound too. */
  ghost predicate WorkerSound(log: seq<Recorder.Record>, w: Worker, id: string) {
    match w
    case Read(_, previous) => Sound(log, previous, id)
    case Marked(_, previous) => Sound(log, previous, id)
    case Checked(_, previous, _) => Sound(log, previous, id)
    case Decided(_, previous, _, _) => Sound(log, previous, id)
    case Recorded(_, _, reference) => reference != "" && Issued(log, reference, id)
    case _ => true
  }

  ghost predicate WorkersSound(s: State) {
    s.phase.Polling? ==>
      forall w | 0 <= w < |s.workers| && Busy(s.workers[w]) ::
        s.workers[w].pos < |s.phase.ids| && WorkerSound(s.log, s.workers[w], s.phase.ids[s.workers[w].pos])
  }

  ghost predicate PendingSound(log: seq<Recorder.Record>, pending: seq<(string, string)>) {
    forall k | 0 <= k < |pending| :: pending[k].1 != "" && Issued(log, pending[k].1, pending[k].0)
  }

  ghost predicate ReferencesSound(s: State) {
    CacheSound(s.log, s.cache) && WorkersSound(s) && PendingSound(s.log, s.pending)
  }

  lemma IssuedLater(log: seq<Recorder.Record>, r: Recorder.Record, reference: string, target: string)
    ensures Issued(log, reference, target) ==> Issued(log + [r], reference, target)
    ensures Issued(log + [r], r.id, r.target)
  {
    var more := log + [r];
    assert more[|log|] == r;
    if Issued(log, reference, target) {
      var i :| 0 <= i < |log| && log[i].id == reference && log[i].target == target;
      assert more[i] == log[i];
    }
  }

  /** One more record keeps everything sound. */
  lemma RecordKeeps(log: seq<Recorder.Record>, r: Recorder.Record, s: State)
    requires s.log == log && ReferencesSound(s)
    ensures ReferencesSound(s.(log := log + [r]))
  {
    forall reference, target ensures Issued(log, reference, target) ==> Issued(log + [r], reference, target) {
      IssuedLater(log, r, reference, target);
    }
    hide Issued;
  }

  lemma StoreKeeps(log: seq<Recorder.Record>, cache: Statuses, status: Status)
    requires CacheSound(log, cache) && Sound(log, status, status.serverID)
    ensures CacheSound(log, Store(cache, status))
  {
    hide Sound;
  }

  /** One step of a check, seen locally: what it writes and keeps is sound if what it read was. */
  lemma LocalSound(log: seq<Recorder.Record>, w: Worker, id: string, seen: Status, cancelled: bool, ok: bool,
                   at: int, token: string)
    requires Busy(w) && WorkerSound(log, w, id) && Sound(log, seen, id)
    ensures
      var e := LocalStep(w, id, seen, cancelled, ok, at, token);
      var after := if e.record.Some? then log + [Recorder.Record(e.record.value, CHECK_ACTION, id, "")] else log;
      && WorkerSound(after, e.worker, id)
      && (e.write.Some? ==> e.write.value.serverID == id && Sound(after, e.write.value, id))
  {
    if w.Decided? {
      var r := Recorder.Record(Reference(token), CHECK_ACTION, id, "");
      IssuedLater(log, r, Reference(token), id);
    }
    hide Issued;
  }

  lemma SeenSound(log: seq<Recorder.Record>, cache: Statuses, id: string)
    requires CacheSound(log, cache)
    ensures Sound(log, Lookup(cache, id), id)
  {
  }

  lemma AppliedKeeps(s: State, w: nat, id: string, e: Effect)
    requires ReferencesSound(s) && s.phase.Polling?
    requires w < |s.workers| && Busy(s.workers[w]) && s.workers[w].pos < |s.phase.ids|
    requires id == s.phase.ids[s.workers[w].pos]
    requires e.worker.Receiving? || (Busy(e.worker) && e.worker.pos == s.workers[w].pos)
    requires
      var after := if e.record.Some? then s.log + [Recorder.Record(e.record.value, CHECK_ACTION, id, "")] else s.log;
      && WorkerSound(after, e.worker, id)
      && (e.write.Some? ==> e.write.value.serverID == id && Sound(after, e.write.value, id))
    ensures ReferencesSound(Applied(s, w, id, e))
  {
    var t := Applied(s, w, id, e);
    if e.record.Some? { RecordKeeps(s.log, Recorder.Record(e.record.value, CHECK_ACTION, id, ""), s); }
    hide Sound, WorkerSound, Issued;
    assert ReferencesSound(s.(log := t.log)) by { assert s == s.(log := s.log); }
    if e.write.Some? { StoreKeeps(t.log, s.cache, e.write.value); }
  }

  lemma WorkKeeps(s: State, w: nat, ok: bool, at: int, token: string)
    requires Enabled(s, Work(w, ok, at, token)) && ReferencesSound(s)
    ensures ReferencesSound(Next(s, Work(w, ok, at, token)))
  {
    var id := ServerOf(s, w);
    SeenSound(s.log, s.cache, id);
    LocalProgress(s.workers[w], id, Lookup(s.cache, id), s.cancelled, ok, at, token);
    hide Sound, WorkerSound, CacheSound, PendingSound, LocalStep;
    LocalSound(s.log, s.workers[w], id, Lookup(s.cache, id), s.cancelled, ok, at, token);
    AppliedKeeps(s, w, id, WorkEffect(s, w, ok, at, token));
  }

  lemma HandlerKeeps(s: State, a: Action)
    requires Enabled(s, a) && ReferencesSound(s)
    requires a.HandlerConnected? || a.HandlerRecords? || a.HandlerUnavailable?
    ensures ReferencesSound(Next(s, a))
  {
    match a {
      case HandlerConnected(id, at) =>
        StoreKeeps(s.log, s.cache, Status(id, Connected, at, ""));
      case HandlerRecords(id, action, token) =>
        var r := Recorder.Record(Reference(token), action, id, "");
        RecordKeeps(s.log, r, s);
        IssuedLater(s.log, r, "", "");
        hide Issued;
      case HandlerUnavailable(k, at) =>
        StoreKeeps(s.log, s.cache, Status(s.pending[k].0, Unavailable, at, s.pending[k].1));
    }
  }

  lemma PhaseKeeps(s: State, a: Action)
    requires Enabled(s, a) && ReferencesSound(s)
    requires !a.Work? && !a.HandlerConnected? && !a.HandlerRecords? && !a.HandlerUnavailable?
    ensures ReferencesSound(Next(s, a))
  {
    match a {
      case ListFails(token) => RecordKeeps(s.log, Recorder.Record(Reference(token), LIST_ACTION, "", ""), s);
      case OtherRecord(r) => RecordKeeps(s.log, r, s);
      case _ =>
    }
    hide Issued, Sound;
  }

  lemma {:induction false} RunKeepsReferences(start: State, actions: seq<Action>)
    requires Fresh(start) && Run(start, actions).Some?
    ensures ReferencesSound(Run(start, actions).value)
  {
    hide ReferencesSound, Next, Enabled;
    if |actions| == 0 {
      NothingShown(start);
    } else {
      var s, a := Run(start, actions[..|actions| - 1]).value, actions[|actions| - 1];
      RunKeepsReferences(start, actions[..|actions| - 1]);
      match a {
        case Work(w, ok, at, token) => WorkKeeps(s, w, ok, at, token);
        case HandlerConnected(_, _) => HandlerKeeps(s, a);
        case HandlerRecords(_, _, _) => HandlerKeeps(s, a);
        case HandlerUnavailable(_, _) => HandlerKeeps(s, a);
        case _ => PhaseKeeps(s, a);
      }
    }
  }

  lemma NothingShown(s: State)
    requires Fresh(s)
    ensures ReferencesSound(s)
  {
  }

  /**
   In every reachable state, whatever the poller and the handlers did, each cached status is filed
   under its own server and carries a reference exactly when unavailable, issued for that server.
   */
  lemma ShownReferencesAreReal(start: State, actions: seq<Action>, id: string)
    requires Fresh(start) && Run(start, actions).Some? && id in Run(start, actions).value.cache
    ensures
      var s := Run(start, actions).value;
      var status := s.cache[id];
      && status.serverID == id
      && (status.state.Unavailable? <==> status.reference != "")
      && (status.state.Unavailable? ==>
            exists i :: 0 <= i < |s.log| && s.log[i].id == status.reference && s.log[i].target == id)
  {
    RunKeepsReferences(start, actions);
    var s := Run(start, actions).value;
    hide Run;
    assert Sound(s.log, s.cache[id], id);
  }

  /**
   With references issued once each, the Error Log finds an unavailable server's reference, and
   finds it about that server, exactly while fewer than two hundred records followed it.
   */
  lemma ShownReferenceResolves(start: State, actions: seq<Action>, id: string)
    requires Fresh(start) && Run(start, actions).Some? && id in Run(start, actions).value.cache
    requires Run(start, actions).value.cache[id].state.Unavailable? && Recorder.Distinct(Run(start, actions).value.log)
    ensures
      var s := Run(start, actions).value;
      var found := Recorder.Newest(Recorder.Last(s.log, Recorder.MAX_RECORDS), s.cache[id].reference);
      exists i :: 0 <= i < |s.log| && s.log[i].id == s.cache[id].reference && s.log[i].target == id
        && found == if |s.log| - i <= 200 then Some(s.log[i]) else None
  {
    ShownReferencesAreReal(start, actions, id);
    var s := Run(start, actions).value;
    var i :| 0 <= i < |s.log| && s.log[i].id == s.cache[id].reference && s.log[i].target == id;
    hide Run;
    Recorder.LookupWindow(s.log, i);
  }
}
