/**
 Audited server registration by concurrent operations: audit the attempt, insert the server,
 resolve the audit row. Any store call may fail; a statement that returns an error has changed
 nothing, except that an update's row count may fail to be read after the update took effect.
 */
module Registration {
  import opened Wrappers

  datatype AuditResult = Attempted | Succeeded | Failed

  datatype AuditRow = AuditRow(user: string, action: string, targetType: string, target: string, result: AuditResult)

  datatype ServerRow = ServerRow(name: string, address: string, connectionType: string)

  type Audits = map<string, AuditRow>
  type Servers = map<string, ServerRow>

  function AttemptRow(user: string, serverID: string): AuditRow {
    AuditRow(user, "create_server", "server", serverID, Attempted)
  }

  /** UPDATE ... WHERE id = ? AND result = 'attempted' */
  function Resolved(audits: Audits, id: string, result: AuditResult): Audits {
    if id in audits && audits[id].result.Attempted? then audits[id := audits[id].(result := result)] else audits
  }

  // ---------- concurrent operations ----------

  datatype Outcome =
    | Rejected
    | Unprepared
    | AuditUnavailable
    | Created(serverID: string, auditID: string)
    | CreationFailed(auditID: string, auditError: bool)
    | AuditIncomplete(serverID: string, auditID: string)

  /** Where an operation stands, with the identifiers it has so far. */
  datatype Stage =
    | Ready
    | Prepared
    | AttemptAudited
    | ServerInserted
    | InsertErrored
    | Finished(outcome: Outcome)

  /** input is the validated input, or None when validation rejects it. */
  datatype Op = Op(user: string, input: Option<ServerRow>, stage: Stage, serverID: string, auditID: string)

  datatype System = System(ops: seq<Op>, audits: Audits, servers: Servers)

  datatype UpdateFault = NoFault | StatementFails | CountFails

  /** One step of one operation; random identifiers and faults are part of the step. */
  datatype Action =
    | Begin(user: string, input: Option<ServerRow>)
    | Prepare(i: nat, id: Option<string>)
    | Attempt(i: nat, id: Option<string>, fails: bool)
    | Insert(i: nat, fails: bool)
    | Resolve(i: nat, fault: UpdateFault)

  predicate Enabled(s: System, a: Action) {
    match a
    case Begin(_, _) => true
    case Prepare(i, _) => i < |s.ops| && s.ops[i].stage.Ready?
    case Attempt(i, _, _) => i < |s.ops| && s.ops[i].stage.Prepared?
    case Insert(i, _) => i < |s.ops| && s.ops[i].stage.AttemptAudited? && s.ops[i].input.Some?
    case Resolve(i, _) => i < |s.ops| && (s.ops[i].stage.ServerInserted? || s.ops[i].stage.InsertErrored?)
  }

  function Moved(s: System, i: nat, op: Op): System
    requires i < |s.ops|
  {
    s.(ops := s.ops[i := op])
  }

  function Next(s: System, a: Action): System
    requires Enabled(s, a)
  {
    match a
    case Begin(user, input) => s.(ops := s.ops + [Op(user, input, Ready, "", "")])
    case Prepare(i, id) =>
      var op := s.ops[i];
      if op.input.None? then Moved(s, i, op.(stage := Finished(Rejected)))
      else if id.None? then Moved(s, i, op.(stage := Finished(Unprepared)))
      else Moved(s, i, op.(stage := Prepared, serverID := id.value))
    case Attempt(i, id, fails) =>
      var op := s.ops[i];
      if id.None? || fails || id.value in s.audits then Moved(s, i, op.(stage := Finished(AuditUnavailable)))
      else Moved(s, i, op.(stage := AttemptAudited, auditID := id.value))
             .(audits := s.audits[id.value := AttemptRow(op.user, op.serverID)])
    case Insert(i, fails) =>
      var op := s.ops[i];
      if fails || op.serverID in s.servers then Moved(s, i, op.(stage := InsertErrored))
      else Moved(s, i, op.(stage := ServerInserted)).(servers := s.servers[op.serverID := op.input.value])
    case Resolve(i, fault) =>
      var op := s.ops[i];
      var result := if op.stage.ServerInserted? then Succeeded else Failed;
      var after := if fault.StatementFails? then s.audits else Resolved(s.audits, op.auditID, result);
      var affected := op.auditID in s.audits && s.audits[op.auditID].result.Attempted?;
      var ok := fault.NoFault? && affected;
      var outcome :=
        if op.stage.InsertErrored? then CreationFailed(op.auditID, !ok)
        else if ok then Created(op.serverID, op.auditID)
        else AuditIncomplete(op.serverID, op.auditID);
      Moved(s, i, op.(stage := Finished(outcome))).(audits := after)
  }

  // ---------- what holds in every state ----------

  predicate Audited(op: Op) {
    op.stage.AttemptAudited? || op.stage.ServerInserted? || op.stage.InsertErrored?
    || (op.stage.Finished?
        && (op.stage.outcome.Created? || op.stage.outcome.CreationFailed? || op.stage.outcome.AuditIncomplete?))
  }

  predicate HasInserted(op: Op) {
    op.stage.ServerInserted?
    || (op.stage.Finished? && (op.stage.outcome.Created? || op.stage.outcome.AuditIncomplete?))
  }

  /** What the audit row may say, from what its operation has done and reported. */
  predicate RowAgrees(op: Op, result: AuditResult) {
    match op.stage
    case Finished(Created(_, _)) => result.Succeeded?
    case Finished(AuditIncomplete(_, _)) => result.Attempted? || result.Succeeded?
    case Finished(CreationFailed(_, auditError)) => if auditError then !result.Succeeded? else result.Failed?
    case _ => result.Attempted?
  }

  /** The identifiers an outcome reports are the operation's own. */
  predicate ReportsOwn(op: Op) {
    match op.stage
    case Finished(Created(s, a)) => s == op.serverID && a == op.auditID
    case Finished(AuditIncomplete(s, a)) => s == op.serverID && a == op.auditID
    case Finished(CreationFailed(a, _)) => a == op.auditID
    case _ => true
  }

  /** An audited operation's row is new, names its user and target, and is in a state it accounts for. */
  predicate OpAudited(before: Audits, audits: Audits, op: Op) {
    Audited(op) ==>
      && op.auditID in audits && op.auditID !in before
      && audits[op.auditID] == AttemptRow(op.user, op.serverID).(result := audits[op.auditID].result)
      && RowAgrees(op, audits[op.auditID].result)
  }

  /** An inserting operation's server row is new and is its own input. */
  predicate OpInserted(before: Servers, servers: Servers, op: Op) {
    HasInserted(op) ==>
      op.serverID in servers && op.serverID !in before && op.input == Some(servers[op.serverID])
  }

  ghost predicate EachAgrees(start: System, s: System) {
    forall i | 0 <= i < |s.ops| ::
      && OpAudited(start.audits, s.audits, s.ops[i]) && OpInserted(start.servers, s.servers, s.ops[i])
      && ReportsOwn(s.ops[i])
  }

  /** No two operations share an audit row or a server row. */
  ghost predicate NoneShared(s: System) {
    forall i, j | 0 <= i < j < |s.ops| ::
      && (Audited(s.ops[i]) && Audited(s.ops[j]) ==> s.ops[i].auditID != s.ops[j].auditID)
      && (HasInserted(s.ops[i]) && HasInserted(s.ops[j]) ==> s.ops[i].serverID != s.ops[j].serverID)
  }

  ghost predicate Owner(s: System, a: string) {
    exists i :: 0 <= i < |s.ops| && Audited(s.ops[i]) && s.ops[i].auditID == a
  }

  ghost predicate Inserter(s: System, k: string) {
    exists i :: 0 <= i < |s.ops| && HasInserted(s.ops[i]) && s.ops[i].serverID == k
  }

  /** Every row is an operation's or was there from the start. */
  ghost predicate NoStrays(start: System, s: System) {
    && (forall a | a in s.audits :: a in start.audits || Owner(s, a))
    && (forall k | k in s.servers :: k in start.servers || Inserter(s, k))
  }

  /** Audit rows stay, keep all but their result, and once resolved never change; server rows never change. */
  ghost predicate Grows(s: System, t: System) {
    && (forall a | a in s.audits ::
          a in t.audits && t.audits[a].(result := Attempted) == s.audits[a].(result := Attempted))
    && (forall a | a in s.audits && !s.audits[a].result.Attempted? :: t.audits[a] == s.audits[a])
    && (forall k | k in s.servers :: k in t.servers && t.servers[k] == s.servers[k])
  }

  ghost predicate Invariant(start: System, s: System) {
    EachAgrees(start, s) && NoneShared(s) && NoStrays(start, s) && Grows(start, s)
  }

  /** No operation running yet. */
  predicate Idle(s: System) { s.ops == [] }

  // The five ways a step can go, by what it does to the operation that takes it and to the tables.

  predicate AddedOp(s: System, t: System) {
    && t.audits == s.audits && t.servers == s.servers && |t.ops| == |s.ops| + 1 && t.ops[..|s.ops|] == s.ops
    && !Audited(t.ops[|s.ops|]) && !HasInserted(t.ops[|s.ops|]) && ReportsOwn(t.ops[|s.ops|])
  }

  predicate OneMoved(s: System, t: System, i: nat) {
    && i < |s.ops| && |t.ops| == |s.ops| && ReportsOwn(t.ops[i])
    && forall j | 0 <= j < |s.ops| && j != i :: t.ops[j] == s.ops[j]
  }

  predicate SameIds(op: Op, next: Op) {
    && (Audited(op) <==> Audited(next)) && (HasInserted(op) <==> HasInserted(next))
    && (Audited(op) ==> op.auditID == next.auditID)
    && (HasInserted(op) ==> op.serverID == next.serverID)
  }

  predicate QuietStep(s: System, t: System, i: nat) {
    OneMoved(s, t, i) && SameIds(s.ops[i], t.ops[i]) && t.audits == s.audits && t.servers == s.servers
  }

  predicate AddedAudit(s: System, t: System, i: nat) {
    && OneMoved(s, t, i) && !Audited(s.ops[i]) && !HasInserted(s.ops[i]) && t.ops[i].stage.AttemptAudited?
    && t.ops[i].auditID !in s.audits && t.servers == s.servers
    && t.audits == s.audits[t.ops[i].auditID := AttemptRow(t.ops[i].user, t.ops[i].serverID)]
  }

  predicate AddedServer(s: System, t: System, i: nat) {
    && OneMoved(s, t, i) && s.ops[i].stage.AttemptAudited? && t.ops[i] == s.ops[i].(stage := ServerInserted)
    && s.ops[i].input.Some? && s.ops[i].serverID !in s.servers && t.audits == s.audits
    && t.servers == s.servers[s.ops[i].serverID := s.ops[i].input.value]
  }

  predicate ResolvedAudit(s: System, t: System, i: nat) {
    && OneMoved(s, t, i) && SameIds(s.ops[i], t.ops[i]) && t.servers == s.servers
    && (s.ops[i].stage.ServerInserted? || s.ops[i].stage.InsertErrored?)
    && t.audits == Resolved(s.audits, s.ops[i].auditID, if s.ops[i].stage.ServerInserted? then Succeeded else Failed)
  }

  lemma StepEffect(s: System, a: Action)
    requires Enabled(s, a)
    ensures var t := Next(s, a);
      || (a.Begin? && AddedOp(s, t))
      || (!a.Begin?
          && (QuietStep(s, t, a.i) || AddedAudit(s, t, a.i) || AddedServer(s, t, a.i) || ResolvedAudit(s, t, a.i)))
  {
    hide Resolved;
  }

  lemma ResolveAgrees(start: System, s: System, i: nat, fault: UpdateFault)
    requires Enabled(s, Resolve(i, fault))
    requires OpAudited(start.audits, s.audits, s.ops[i]) && OpInserted(start.servers, s.servers, s.ops[i])
    ensures OpAudited(start.audits, Next(s, Resolve(i, fault)).audits, Next(s, Resolve(i, fault)).ops[i])
    ensures OpInserted(start.servers, Next(s, Resolve(i, fault)).servers, Next(s, Resolve(i, fault)).ops[i])
  {
    assert s.ops[i].auditID in s.audits && s.audits[s.ops[i].auditID].result.Attempted?;
  }

  lemma InsertAgrees(start: System, s: System, i: nat, fails: bool)
    requires Enabled(s, Insert(i, fails)) && Grows(start, s)
    requires OpAudited(start.audits, s.audits, s.ops[i]) && OpInserted(start.servers, s.servers, s.ops[i])
    ensures OpAudited(start.audits, Next(s, Insert(i, fails)).audits, Next(s, Insert(i, fails)).ops[i])
    ensures OpInserted(start.servers, Next(s, Insert(i, fails)).servers, Next(s, Insert(i, fails)).ops[i])
  {
    assert s.ops[i].serverID !in s.servers ==> s.ops[i].serverID !in start.servers;
    hide Grows;
  }

  lemma OwnStepAgrees(start: System, s: System, a: Action)
    requires Enabled(s, a) && !a.Begin? && Grows(start, s)
    requires OpAudited(start.audits, s.audits, s.ops[a.i]) && OpInserted(start.servers, s.servers, s.ops[a.i])
    ensures OpAudited(start.audits, Next(s, a).audits, Next(s, a).ops[a.i])
    ensures OpInserted(start.servers, Next(s, a).servers, Next(s, a).ops[a.i])
  {
    match a {
      case Insert(i, fails) => InsertAgrees(start, s, i, fails);
      case Resolve(i, fault) => ResolveAgrees(start, s, i, fault);
      case Attempt(i, id, _) =>
        assert id.Some? && id.value !in s.audits ==> id.value !in start.audits;
        hide Grows;
      case Prepare(_, _) => hide Grows;
    }
  }

  /** Every audited operation's row is in the table. */
  ghost predicate RowsPresent(s: System) {
    && (forall j | 0 <= j < |s.ops| && Audited(s.ops[j]) :: s.ops[j].auditID in s.audits)
    && (forall j | 0 <= j < |s.ops| && HasInserted(s.ops[j]) :: s.ops[j].serverID in s.servers && Audited(s.ops[j]))
  }

  lemma AgreesPresent(start: System, s: System)
    requires EachAgrees(start, s)
    ensures RowsPresent(s)
  {
    hide RowAgrees;
    forall j | 0 <= j < |s.ops|
      ensures Audited(s.ops[j]) ==> s.ops[j].auditID in s.audits
      ensures HasInserted(s.ops[j]) ==> s.ops[j].serverID in s.servers
    {
      assert OpAudited(start.audits, s.audits, s.ops[j]) && OpInserted(start.servers, s.servers, s.ops[j]);
    }
  }

  /** A step changes no other operation's rows. */
  lemma OthersKept(start: System, s: System, t: System, i: nat, op: Op)
    requires QuietStep(s, t, i) || AddedAudit(s, t, i) || AddedServer(s, t, i) || ResolvedAudit(s, t, i)
    requires OpAudited(start.audits, s.audits, op) && OpInserted(start.servers, s.servers, op)
    requires Audited(s.ops[i]) && Audited(op) ==> op.auditID != s.ops[i].auditID
    ensures OpAudited(start.audits, t.audits, op) && OpInserted(start.servers, t.servers, op)
  {
    hide RowAgrees;
  }

  lemma StepAgrees(start: System, s: System, a: Action)
    requires Enabled(s, a) && Invariant(start, s)
    ensures EachAgrees(start, Next(s, a))
  {
    var t := Next(s, a);
    StepEffect(s, a);
    if !a.Begin? { OwnStepAgrees(start, s, a); }
    hide Next, Enabled, RowAgrees, NoStrays, OpAudited, OpInserted, Grows, Resolved, Audited, HasInserted;
    forall j | 0 <= j < |t.ops|
      ensures OpAudited(start.audits, t.audits, t.ops[j]) && OpInserted(start.servers, t.servers, t.ops[j])
      ensures ReportsOwn(t.ops[j])
    {
      if a.Begin? {
        if j < |s.ops| { assert t.ops[j] == s.ops[j]; } else { Untouched(start, t, t.ops[j]); }
      } else if j != a.i {
        assert j < a.i || a.i < j;
        OthersKept(start, s, t, a.i, s.ops[j]);
      }
    }
  }

  lemma Untouched(start: System, t: System, op: Op)
    requires !Audited(op) && !HasInserted(op)
    ensures OpAudited(start.audits, t.audits, op) && OpInserted(start.servers, t.servers, op)
  {
  }

  lemma SharesKept(s: System, t: System, i: nat)
    requires NoneShared(s) && RowsPresent(s)
    requires
      || AddedOp(s, t) || QuietStep(s, t, i) || AddedAudit(s, t, i)
      || AddedServer(s, t, i) || ResolvedAudit(s, t, i)
    ensures NoneShared(t)
  {
    hide Resolved;
    forall j, k | 0 <= j < k < |t.ops|
      ensures Audited(t.ops[j]) && Audited(t.ops[k]) ==> t.ops[j].auditID != t.ops[k].auditID
      ensures HasInserted(t.ops[j]) && HasInserted(t.ops[k]) ==> t.ops[j].serverID != t.ops[k].serverID
    {
      if AddedOp(s, t) {
        assert t.ops[j] == s.ops[j];
        if k < |s.ops| { assert t.ops[k] == s.ops[k]; }
      } else {
        assert j != i ==> t.ops[j] == s.ops[j];
        assert k != i ==> t.ops[k] == s.ops[k];
      }
    }
  }

  lemma OwnersKept(s: System, t: System, i: nat, r: string)
    requires
      || AddedOp(s, t) || QuietStep(s, t, i) || AddedAudit(s, t, i)
      || AddedServer(s, t, i) || ResolvedAudit(s, t, i)
    ensures Owner(s, r) ==> Owner(t, r)
    ensures Inserter(s, r) ==> Inserter(t, r)
  {
    hide Resolved;
    if Owner(s, r) {
      var j :| 0 <= j < |s.ops| && Audited(s.ops[j]) && s.ops[j].auditID == r;
      assert Audited(t.ops[j]) && t.ops[j].auditID == r by { if AddedOp(s, t) { assert t.ops[j] == s.ops[j]; } }
    }
    if Inserter(s, r) {
      var j :| 0 <= j < |s.ops| && HasInserted(s.ops[j]) && s.ops[j].serverID == r;
      assert HasInserted(t.ops[j]) && t.ops[j].serverID == r by { if AddedOp(s, t) { assert t.ops[j] == s.ops[j]; } }
    }
  }

  lemma StraysKept(start: System, s: System, t: System, i: nat)
    requires NoStrays(start, s)
    requires
      || AddedOp(s, t) || QuietStep(s, t, i) || AddedAudit(s, t, i)
      || AddedServer(s, t, i) || ResolvedAudit(s, t, i)
    ensures NoStrays(start, t)
  {
    if AddedAudit(s, t, i) { assert Audited(t.ops[i]); assert Owner(t, t.ops[i].auditID); }
    if AddedServer(s, t, i) { assert HasInserted(t.ops[i]); assert Inserter(t, t.ops[i].serverID); }
    forall r ensures (Owner(s, r) ==> Owner(t, r)) && (Inserter(s, r) ==> Inserter(t, r)) {
      OwnersKept(s, t, i, r);
    }
    hide Owner, Inserter;
  }

  lemma ResolvedGrows(audits: Audits, id: string, result: AuditResult)
    ensures forall a | a in audits ::
      && a in Resolved(audits, id, result)
      && Resolved(audits, id, result)[a].(result := Attempted) == audits[a].(result := Attempted)
    ensures forall a | a in audits && !audits[a].result.Attempted? :: Resolved(audits, id, result)[a] == audits[a]
  {
  }

  lemma EffectGrows(s: System, t: System, i: nat)
    requires
      || AddedOp(s, t) || QuietStep(s, t, i) || AddedAudit(s, t, i)
      || AddedServer(s, t, i) || ResolvedAudit(s, t, i)
    ensures Grows(s, t)
  {
    hide Resolved, SameIds;
    if ResolvedAudit(s, t, i) {
      ResolvedGrows(s.audits, s.ops[i].auditID, if s.ops[i].stage.ServerInserted? then Succeeded else Failed);
    }
  }

  lemma StepGrows(s: System, a: Action)
    requires Enabled(s, a)
    ensures Grows(s, Next(s, a))
  {
    hide Next, Grows, AddedOp, QuietStep, AddedAudit, AddedServer, ResolvedAudit, Enabled;
    StepEffect(s, a);
    EffectGrows(s, Next(s, a), if a.Begin? then 0 else a.i);
  }

  lemma GrowsTransitive(s: System, t: System, u: System)
    requires Grows(s, t) && Grows(t, u)
    ensures Grows(s, u)
  {
  }

  lemma StepKeepsInvariant(start: System, s: System, a: Action)
    requires Enabled(s, a) && Invariant(start, s)
    ensures Invariant(start, Next(s, a))
  {
    hide EachAgrees, NoneShared, NoStrays, Grows, Next, Enabled;
    StepAgrees(start, s, a);
    AgreesPresent(start, s);
    StepEffect(s, a);
    hide AddedOp, QuietStep, AddedAudit, AddedServer, ResolvedAudit, RowsPresent;
    var i := if a.Begin? then 0 else a.i;
    SharesKept(s, Next(s, a), i);
    StraysKept(start, s, Next(s, a), i);
    StepGrows(s, a);
    GrowsTransitive(start, s, Next(s, a));
  }

  // ---------- runs ----------

  /** The state after the actions, or None if one of them was not possible. */
  function Run(start: System, actions: seq<Action>): Option<System> {
    if |actions| == 0 then Some(start)
    else
      var before := Run(start, actions[..|actions| - 1]);
      if before.None? || !Enabled(before.value, actions[|actions| - 1]) then None
      else Some(Next(before.value, actions[|actions| - 1]))
  }

  lemma {:induction false} RunKeepsInvariant(start: System, actions: seq<Action>)
    requires Idle(start) && Run(start, actions).Some?
    ensures Invariant(start, Run(start, actions).value)
  {
    hide Invariant, Enabled, Next;
    if |actions| == 0 {
      IdleInvariant(start);
    } else {
      RunKeepsInvariant(start, actions[..|actions| - 1]);
      StepKeepsInvariant(start, Run(start, actions[..|actions| - 1]).value, actions[|actions| - 1]);
    }
  }

  lemma IdleInvariant(start: System)
    requires Idle(start)
    ensures Invariant(start, start)
  {
  }

  /** A new server row is there only with an audit row that names it as target and is not failed. */
  lemma ServerRowIsAudited(start: System, actions: seq<Action>, k: string)
    requires Idle(start) && Run(start, actions).Some?
    requires k in Run(start, actions).value.servers && k !in start.servers
    ensures
      var s := Run(start, actions).value;
      exists a :: a in s.audits && a !in start.audits && s.audits[a].target == k && !s.audits[a].result.Failed?
  {
    hide Run;
    RunKeepsInvariant(start, actions);
    var s := Run(start, actions).value;
    assert Inserter(s, k);
    var i :| 0 <= i < |s.ops| && HasInserted(s.ops[i]) && s.ops[i].serverID == k;
    assert s.ops[i].auditID in s.audits;
  }

  /** A succeeded row means its operation inserted its target; a failed one that its insert errored. */
  lemma AuditTellsTruth(start: System, actions: seq<Action>, a: string)
    requires Idle(start) && Run(start, actions).Some?
    requires a in Run(start, actions).value.audits && a !in start.audits
    ensures
      var s := Run(start, actions).value;
      var k := s.audits[a].target;
      exists i :: 0 <= i < |s.ops| && Audited(s.ops[i]) && s.ops[i].auditID == a && s.ops[i].serverID == k
        && (s.audits[a].result.Succeeded? ==>
              HasInserted(s.ops[i]) && k in s.servers && s.ops[i].input == Some(s.servers[k]))
        && (s.audits[a].result.Failed? ==> s.ops[i].stage.Finished? && s.ops[i].stage.outcome.CreationFailed?)
  {
    hide Run;
    RunKeepsInvariant(start, actions);
    var s := Run(start, actions).value;
    assert Owner(s, a);
  }

  /** What the caller is told against what the tables hold. */
  lemma OutcomeTellsTruth(start: System, actions: seq<Action>, i: nat)
    requires Idle(start) && Run(start, actions).Some?
    requires i < |Run(start, actions).value.ops| && Run(start, actions).value.ops[i].stage.Finished?
    ensures
      var s := Run(start, actions).value;
      var op := s.ops[i];
      match op.stage.outcome
      case Created(id, a) =>
        && id in s.servers && op.input == Some(s.servers[id])
        && a in s.audits && s.audits[a] == AttemptRow(op.user, id).(result := Succeeded)
      case AuditIncomplete(id, a) =>
        && id in s.servers && op.input == Some(s.servers[id])
        && a in s.audits && s.audits[a].target == id && !s.audits[a].result.Failed?
      case CreationFailed(a, auditError) =>
        a in s.audits && !s.audits[a].result.Succeeded? && (!auditError ==> s.audits[a].result.Failed?)
      case _ => !Audited(op) && !HasInserted(op)
  {
    hide Run;
    RunKeepsInvariant(start, actions);
  }

  lemma {:induction false} RunGrows(start: System, actions: seq<Action>, more: seq<Action>)
    requires Run(start, actions + more).Some?
    ensures Run(start, actions).Some? && Grows(Run(start, actions).value, Run(start, actions + more).value)
    decreases |more|
  {
    hide Enabled, Next;
    if |more| == 0 {
      assert actions + more == actions;
    } else {
      var p := more[..|more| - 1];
      assert (actions + more)[..|actions + more| - 1] == actions + p;
      RunGrows(start, actions, p);
      StepGrows(Run(start, actions + p).value, more[|more| - 1]);
    }
  }

  /** Each audit row leaves attempted at most once: a later state shows the result it was first resolved to. */
  lemma ResolvedOnce(start: System, actions: seq<Action>, more: seq<Action>, a: string)
    requires Run(start, actions + more).Some? && Run(start, actions).Some?
    requires a in Run(start, actions).value.audits && !Run(start, actions).value.audits[a].result.Attempted?
    ensures a in Run(start, actions + more).value.audits
    ensures Run(start, actions + more).value.audits[a] == Run(start, actions).value.audits[a]
  {
    hide Run;
    RunGrows(start, actions, more);
  }

  // ---------- conservation ----------

  /** The operation inserted a server and its audit row still says attempted. */
  predicate Pending(audits: Audits, op: Op) {
    HasInserted(op) && op.auditID in audits && audits[op.auditID].result.Attempted?
  }

  ghost function Unresolved(s: System): set<int> {
    set i | 0 <= i < |s.ops| && Pending(s.audits, s.ops[i])
  }

  ghost function NewSuccesses(start: System, s: System): set<string> {
    set a | a in s.audits && a !in start.audits && s.audits[a].result.Succeeded?
  }

  ghost function NewServers(start: System, s: System): set<string> {
    s.servers.Keys - start.servers.Keys
  }

  /** New server rows are new success rows plus operations that inserted and have not been resolved. */
  ghost predicate Conserved(start: System, s: System) {
    |NewServers(start, s)| == |NewSuccesses(start, s)| + |Unresolved(s)|
  }

  lemma AddOne<T>(s: set<T>, t: set<T>, x: T)
    requires x !in s && t == s + {x}
    ensures |t| == |s| + 1
  {
  }

  /** Which operations a step makes pending, or settles. */
  lemma PendingElsewhere(s: System, t: System, i: nat, j: nat)
    requires QuietStep(s, t, i) || AddedAudit(s, t, i) || AddedServer(s, t, i) || ResolvedAudit(s, t, i)
    requires RowsPresent(s) && NoneShared(s) && j < |s.ops| && j != i
    ensures Pending(t.audits, t.ops[j]) <==> Pending(s.audits, s.ops[j])
  {
    assert j < i || i < j;
  }

  /** Pending alike in two states, but perhaps for operation i. */
  ghost predicate PendingAlike(s: System, t: System, i: nat) {
    |s.ops| <= |t.ops| && forall j: nat | j < |t.ops| && j != i ::
      Pending(t.audits, t.ops[j]) <==> j < |s.ops| && Pending(s.audits, s.ops[j])
  }

  lemma SetChange<T>(a: set<T>, b: set<T>, i: T)
    requires forall j | j != i :: j in a <==> j in b
    ensures |b| - |a| == (if i in b then 1 else 0) - (if i in a then 1 else 0)
  {
    var rest := a - {i};
    assert b - {i} == rest;
    assert a == if i in a then rest + {i} else rest;
    assert b == if i in b then rest + {i} else rest;
  }

  lemma UnresolvedChange(s: System, t: System, i: nat)
    requires PendingAlike(s, t, i) && i < |t.ops|
    ensures
      var before, after := i < |s.ops| && Pending(s.audits, s.ops[i]), Pending(t.audits, t.ops[i]);
      |Unresolved(t)| - |Unresolved(s)| == (if after then 1 else 0) - (if before then 1 else 0)
  {
    hide Pending;
    forall j | j != i ensures j in Unresolved(s) <==> j in Unresolved(t) {
      if 0 <= j < |t.ops| { assert Pending(t.audits, t.ops[j]) <==> j < |s.ops| && Pending(s.audits, s.ops[j]); }
    }
    SetChange(Unresolved(s), Unresolved(t), i);
  }

  lemma PendingAlikeStep(s: System, t: System, i: nat)
    requires QuietStep(s, t, i) || AddedAudit(s, t, i) || AddedServer(s, t, i) || ResolvedAudit(s, t, i)
    requires RowsPresent(s) && NoneShared(s)
    ensures PendingAlike(s, t, i)
  {
    hide RowsPresent, NoneShared, Pending, Resolved;
    forall j: nat | j < |s.ops| && j != i ensures Pending(t.audits, t.ops[j]) <==> Pending(s.audits, s.ops[j]) {
      PendingElsewhere(s, t, i, j);
    }
  }

  lemma SuccessesKept(start: System, s: System, t: System, i: nat)
    requires QuietStep(s, t, i) || AddedAudit(s, t, i) || AddedServer(s, t, i)
    ensures NewSuccesses(start, t) == NewSuccesses(start, s)
  {
  }

  lemma AddOutside<T>(a: set<T>, b: set<T>, known: set<T>, x: T)
    requires b == a + {x} && x !in a && x !in known
    ensures |b - known| == |a - known| + 1
  {
    assert b - known == (a - known) + {x};
  }

  lemma KeysUpdate<K, V>(m: map<K, V>, k: K, v: V)
    ensures m[k := v].Keys == m.Keys + {k}
  {
  }

  lemma AddedServerRows(start: System, s: System, t: System, i: nat)
    requires AddedServer(s, t, i) && Grows(start, s)
    ensures |NewServers(start, t)| == |NewServers(start, s)| + 1
  {
    var id := s.ops[i].serverID;
    assert id !in start.servers;
    hide Grows, OneMoved;
    KeysUpdate(s.servers, id, s.ops[i].input.value);
    AddOutside(s.servers.Keys, t.servers.Keys, start.servers.Keys, id);
  }

  lemma AddedServerPending(start: System, s: System, t: System, i: nat)
    requires AddedServer(s, t, i) && OpAudited(start.audits, s.audits, s.ops[i])
    ensures !Pending(s.audits, s.ops[i]) && Pending(t.audits, t.ops[i])
  {
  }

  lemma AddedServerConserves(start: System, s: System, t: System, i: nat)
    requires AddedServer(s, t, i) && Conserved(start, s) && RowsPresent(s) && NoneShared(s)
    requires OpAudited(start.audits, s.audits, s.ops[i]) && Grows(start, s)
    ensures Conserved(start, t)
  {
    hide Pending, RowsPresent, NoneShared, OpAudited, Grows, PendingAlike, Unresolved, NewSuccesses, NewServers;
    AddedServerPending(start, s, t, i);
    PendingAlikeStep(s, t, i);
    UnresolvedChange(s, t, i);
    SuccessesKept(start, s, t, i);
    AddedServerRows(start, s, t, i);
  }

  lemma ResolvedServers(start: System, s: System, t: System, i: nat)
    requires ResolvedAudit(s, t, i)
    ensures NewServers(start, t) == NewServers(start, s)
  {
  }

  lemma ResolvedSuccesses(start: System, s: System, t: System, i: nat)
    requires ResolvedAudit(s, t, i) && OpAudited(start.audits, s.audits, s.ops[i])
    ensures |NewSuccesses(start, t)| == |NewSuccesses(start, s)| + if s.ops[i].stage.ServerInserted? then 1 else 0
  {
    var a := s.ops[i].auditID;
    assert s.audits[a].result.Attempted? && a !in start.audits;
    hide OpAudited, OneMoved, SameIds;
    if s.ops[i].stage.InsertErrored? {
      assert NewSuccesses(start, t) == NewSuccesses(start, s);
    } else {
      assert NewSuccesses(start, t) == NewSuccesses(start, s) + {a};
      AddOne(NewSuccesses(start, s), NewSuccesses(start, t), a);
    }
  }

  lemma ResolvedConserves(start: System, s: System, t: System, i: nat)
    requires ResolvedAudit(s, t, i) && Conserved(start, s) && RowsPresent(s) && NoneShared(s)
    requires OpAudited(start.audits, s.audits, s.ops[i])
    ensures Conserved(start, t)
  {
    assert Pending(s.audits, s.ops[i]) <==> s.ops[i].stage.ServerInserted?;
    assert !Pending(t.audits, t.ops[i]);
    hide NewServers, NewSuccesses, Unresolved;
    ResolvedServers(start, s, t, i);
    ResolvedSuccesses(start, s, t, i);
    PendingAlikeStep(s, t, i);
    UnresolvedChange(s, t, i);
  }

  lemma QuietConserves(start: System, s: System, t: System, i: nat)
    requires QuietStep(s, t, i) || AddedAudit(s, t, i)
    requires Conserved(start, s) && RowsPresent(s) && NoneShared(s)
    ensures Conserved(start, t)
  {
    assert Pending(t.audits, t.ops[i]) <==> Pending(s.audits, s.ops[i]);
    assert NewServers(start, t) == NewServers(start, s);
    hide NewServers, NewSuccesses, Unresolved;
    SuccessesKept(start, s, t, i);
    PendingAlikeStep(s, t, i);
    UnresolvedChange(s, t, i);
  }

  lemma BeginConserves(start: System, s: System, t: System)
    requires AddedOp(s, t) && Conserved(start, s)
    ensures Conserved(start, t)
  {
    forall j: nat | j < |s.ops| ensures Pending(t.audits, t.ops[j]) <==> Pending(s.audits, s.ops[j]) {
      assert t.ops[j] == s.ops[j];
    }
    assert !Pending(t.audits, t.ops[|s.ops|]);
    assert NewServers(start, t) == NewServers(start, s);
    assert NewSuccesses(start, t) == NewSuccesses(start, s);
    hide NewServers, NewSuccesses, Unresolved, Pending;
    UnresolvedChange(s, t, |s.ops|);
  }

  lemma StepConserves(start: System, s: System, a: Action)
    requires Enabled(s, a) && Invariant(start, s) && Conserved(start, s)
    ensures Conserved(start, Next(s, a))
  {
    hide Conserved, NoneShared, Grows, OpAudited, OpInserted, RowsPresent, NoStrays;
    var t := Next(s, a);
    StepEffect(s, a);
    AgreesPresent(start, s);
    hide Next, Enabled, AddedOp, QuietStep, AddedAudit, AddedServer, ResolvedAudit;
    if a.Begin? {
      BeginConserves(start, s, t);
    } else if AddedServer(s, t, a.i) {
      AddedServerConserves(start, s, t, a.i);
    } else if ResolvedAudit(s, t, a.i) {
      ResolvedConserves(start, s, t, a.i);
    } else {
      QuietConserves(start, s, t, a.i);
    }
  }

  /** Conservation in every reachable state. */
  lemma {:induction false} RunConserves(start: System, actions: seq<Action>)
    requires Idle(start) && Run(start, actions).Some?
    ensures Conserved(start, Run(start, actions).value)
  {
    hide Invariant, Enabled, Next;
    if |actions| == 0 {
      NothingYet(start);
    } else {
      var p, a := actions[..|actions| - 1], actions[|actions| - 1];
      RunConserves(start, p);
      RunKeepsInvariant(start, p);
      var s := Run(start, p).value;
      StepConserves(start, s, a);
    }
  }

  lemma NothingYet(start: System)
    requires Idle(start)
    ensures Conserved(start, start)
  {
    assert NewServers(start, start) == {} && NewSuccesses(start, start) == {} && Unresolved(start) == {};
  }

  // ---------- the stores and the service ----------

  class AuditStore {
    var rows: Audits

    constructor ()
      ensures rows == map[]
    {
      rows := map[];
    }

    /** id is the random identifier, or None when the generator failed. */
    method RecordAttempt(user: string, action: string, targetType: string, target: string, id: Option<string>,
                         fails: bool)
      returns (recorded: bool)
      modifies this
      ensures recorded <==> id.Some? && !fails && id.value !in old(rows)
      ensures !recorded ==> rows == old(rows)
      ensures recorded ==> rows == old(rows)[id.value := AuditRow(user, action, targetType, target, Attempted)]
    {
      if id.None? || fails || id.value in rows { return false; }
      rows := rows[id.value := AuditRow(user, action, targetType, target, Attempted)];
      recorded := true;
    }

    /** Only attempted rows can be resolved, and only to success or failure. */
    method RecordResult(id: string, result: AuditResult, fault: UpdateFault) returns (ok: bool)
      modifies this
      ensures ok <==> !result.Attempted? && fault.NoFault? && id in old(rows) && old(rows)[id].result.Attempted?
      ensures rows == if result.Attempted? || fault.StatementFails? then old(rows) else Resolved(old(rows), id, result)
    {
      if result.Attempted? || fault.StatementFails? { return false; }
      var affected := if id in rows && rows[id].result.Attempted? then 1 else 0;
      if affected == 1 { rows := rows[id := rows[id].(result := result)]; }
      ok := !fault.CountFails? && affected != 0;
    }
  }

  class ServerStore {
    var rows: Servers

    constructor ()
      ensures rows == map[]
    {
      rows := map[];
    }

    method Create(id: string, input: ServerRow, fails: bool) returns (ok: bool)
      modifies this
      ensures ok <==> !fails && id !in old(rows)
      ensures rows == if ok then old(rows)[id := input] else old(rows)
    {
      if fails || id in rows { return false; }
      rows := rows[id := input];
      ok := true;
    }
  }

  /** Everything outside the service's control during one call. */
  datatype Environment =
    Environment(
      serverID: Option<string>,
      auditID: Option<string>,
      auditFails: bool,
      insertFails: bool,
      resolve: UpdateFault)

  /** The four steps of one operation with nothing in between. */
  function Alone(user: string, input: Option<ServerRow>, env: Environment): seq<Action> {
    [Begin(user, input), Prepare(0, env.serverID), Attempt(0, env.auditID, env.auditFails),
     Insert(0, env.insertFails), Resolve(0, env.resolve)]
  }

  /** As many of an operation's steps as it takes to finish. */
  function RunToEnd(s: System, actions: seq<Action>): System
    decreases |actions|
  {
    if |actions| == 0 || !Enabled(s, actions[0]) then s else RunToEnd(Next(s, actions[0]), actions[1..])
  }

  /** The input is valid and a server identifier was drawn. */
  predicate Prepares(input: Option<ServerRow>, env: Environment) { input.Some? && env.serverID.Some? }

  /** The attempt can be recorded. */
  predicate Attempts(audits: Audits, env: Environment) {
    env.auditID.Some? && !env.auditFails && env.auditID.value !in audits
  }

  /** The server can be inserted. */
  predicate Inserts(servers: Servers, env: Environment)
    requires env.serverID.Some?
  {
    !env.insertFails && env.serverID.value !in servers
  }

  /** Which circumstances give which outcome. */
  predicate Decides(audits: Audits, servers: Servers, input: Option<ServerRow>, env: Environment, outcome: Outcome) {
    && (outcome.Rejected? <==> input.None?)
    && (outcome.Unprepared? <==> input.Some? && env.serverID.None?)
    && (outcome.AuditUnavailable? <==> Prepares(input, env) && !Attempts(audits, env))
    && (outcome.CreationFailed? <==> Prepares(input, env) && Attempts(audits, env) && !Inserts(servers, env))
    && (outcome.Created? <==>
          Prepares(input, env) && Attempts(audits, env) && Inserts(servers, env) && env.resolve.NoFault?)
    && (outcome.AuditIncomplete? <==>
          Prepares(input, env) && Attempts(audits, env) && Inserts(servers, env) && !env.resolve.NoFault?)
    && (outcome.Created? ==> env.serverID == Some(outcome.serverID) && env.auditID == Some(outcome.auditID))
    && (outcome.AuditIncomplete? ==> env.serverID == Some(outcome.serverID) && env.auditID == Some(outcome.auditID))
    && (outcome.CreationFailed? ==>
          env.auditID == Some(outcome.auditID) && outcome.auditError == !env.resolve.NoFault?)
  }

  /** One new row, exactly when the insert is reached and possible. */
  function ServersAfter(audits: Audits, servers: Servers, input: Option<ServerRow>, env: Environment): Servers {
    if Prepares(input, env) && Attempts(audits, env) && Inserts(servers, env) then
      servers[env.serverID.value := input.value]
    else servers
  }

  /**
   One new row, exactly when the attempt is reached and possible, with the insert's result unless that
   update failed.
   */
  function AuditsAfter(audits: Audits, servers: Servers, user: string, input: Option<ServerRow>,
                       env: Environment): Audits {
    if !Prepares(input, env) || !Attempts(audits, env) then audits
    else
      var result :=
        if env.resolve.StatementFails? then Attempted
        else if Inserts(servers, env) then Succeeded
        else Failed;
      audits[env.auditID.value := AuditRow(user, "create_server", "server", env.serverID.value, result)]
  }

  class Service {
    const servers: ServerStore
    const audits: AuditStore

    constructor (servers: ServerStore, audits: AuditStore)
      ensures this.servers == servers && this.audits == audits
    {
      this.servers := servers;
      this.audits := audits;
    }

    /**
     Its circumstances decide its outcome and both tables; its steps in the concurrent machine, taken
     alone, do the same.
     */
    method Create(user: string, input: Option<ServerRow>, env: Environment) returns (outcome: Outcome)
      modifies servers, audits
      ensures Decides(old(audits.rows), old(servers.rows), input, env, outcome)
      ensures servers.rows == ServersAfter(old(audits.rows), old(servers.rows), input, env)
      ensures audits.rows == AuditsAfter(old(audits.rows), old(servers.rows), user, input, env)
      ensures
        var s := RunToEnd(System([], old(audits.rows), old(servers.rows)), Alone(user, input, env));
        |s.ops| == 1 && s.ops[0].stage == Finished(outcome) && s.audits == audits.rows && s.servers == servers.rows
    {
      hide RunToEnd, Alone;
      AloneDecides(user, input, env, audits.rows, servers.rows);
      if input.None? { return Rejected; }
      if env.serverID.None? { return Unprepared; }
      var serverID := env.serverID.value;
      var recorded := audits.RecordAttempt(user, "create_server", "server", serverID, env.auditID, env.auditFails);
      if !recorded { return AuditUnavailable; }
      var created := servers.Create(serverID, input.value, env.insertFails);
      if !created {
        var failed := audits.RecordResult(env.auditID.value, Failed, env.resolve);
        return CreationFailed(env.auditID.value, !failed);
      }
      var resolved := audits.RecordResult(env.auditID.value, Succeeded, env.resolve);
      if !resolved { return AuditIncomplete(serverID, env.auditID.value); }
      outcome := Created(serverID, env.auditID.value);
    }
  }

  /** Up to the recorded attempt. */
  lemma AloneAttempts(user: string, input: Option<ServerRow>, env: Environment, audits: Audits, servers: Servers)
    returns (s: System, rest: seq<Action>)
    ensures RunToEnd(System([], audits, servers), Alone(user, input, env)) == RunToEnd(s, rest)
    ensures
      if Prepares(input, env) && Attempts(audits, env) then
        && rest == [Insert(0, env.insertFails), Resolve(0, env.resolve)]
        && s.ops == [Op(user, input, AttemptAudited, env.serverID.value, env.auditID.value)]
        && s.audits == audits[env.auditID.value := AttemptRow(user, env.serverID.value)] && s.servers == servers
      else
        && RunToEnd(s, rest) == s && s.audits == audits && s.servers == servers
        && |s.ops| == 1 && s.ops[0].stage == Finished(
          if input.None? then Rejected else if env.serverID.None? then Unprepared else AuditUnavailable)
  {
    hide RunToEnd, HasInserted, ReportsOwn;
    s, rest := TakeStep(System([], audits, servers), Alone(user, input, env));
    s, rest := TakeStep(s, rest);
    s, rest := TakeStep(s, rest);
    if !(Prepares(input, env) && Attempts(audits, env)) { s, rest := TakeStep(s, rest); }
  }

  /** From the recorded attempt on. */
  lemma AloneInserts(s: System, user: string, input: Option<ServerRow>, env: Environment, audits: Audits,
                     servers: Servers)
    requires Prepares(input, env) && Attempts(audits, env)
    requires s.ops == [Op(user, input, AttemptAudited, env.serverID.value, env.auditID.value)]
    requires s.audits == audits[env.auditID.value := AttemptRow(user, env.serverID.value)] && s.servers == servers
    ensures
      var t := RunToEnd(s, [Insert(0, env.insertFails), Resolve(0, env.resolve)]);
      && |t.ops| == 1 && t.ops[0].stage.Finished?
      && Decides(audits, servers, input, env, t.ops[0].stage.outcome)
      && t.servers == ServersAfter(audits, servers, input, env)
      && t.audits == AuditsAfter(audits, servers, user, input, env)
  {
    hide RunToEnd, HasInserted, ReportsOwn;
    var t, rest := TakeStep(s, [Insert(0, env.insertFails), Resolve(0, env.resolve)]);
    t, rest := TakeStep(t, rest);
    t, rest := TakeStep(t, rest);
  }

  lemma AloneDecides(user: string, input: Option<ServerRow>, env: Environment, audits: Audits, servers: Servers)
    ensures
      var s := RunToEnd(System([], audits, servers), Alone(user, input, env));
      && |s.ops| == 1 && s.ops[0].stage.Finished?
      && Decides(audits, servers, input, env, s.ops[0].stage.outcome)
      && s.servers == ServersAfter(audits, servers, input, env)
      && s.audits == AuditsAfter(audits, servers, user, input, env)
  {
    hide RunToEnd, Alone;
    var s, rest := AloneAttempts(user, input, env, audits, servers);
    if Prepares(input, env) && Attempts(audits, env) { AloneInserts(s, user, input, env, audits, servers); }
  }

  /** The state and the plan after the first step of the plan, if it can be taken. */
  lemma TakeStep(s: System, plan: seq<Action>) returns (t: System, rest: seq<Action>)
    ensures RunToEnd(s, plan) == RunToEnd(t, rest)
    ensures |rest| == 0 ==> RunToEnd(t, rest) == t
    ensures
      if |plan| > 0 && Enabled(s, plan[0]) then t == Next(s, plan[0]) && rest == plan[1..]
      else t == s && rest == []
    ensures |plan| == 0 ==> RunToEnd(s, plan) == s
  {
    if |plan| > 0 && Enabled(s, plan[0]) {
      t, rest := Next(s, plan[0]), plan[1..];
    } else {
      t, rest := s, [];
    }
  }
}
