/** The process-local Docker status cache: one status per server, overwritten whole. */
module StatusCache {
  datatype Health = NotChecked | Checking | Connected | Unavailable

  /** checkedAt is in nanoseconds; 0 stands for Go's zero time. */
  datatype Status = Status(serverID: string, state: Health, checkedAt: int, reference: string)

  type Statuses = map<string, Status>

  function Lookup(m: Statuses, serverID: string): Status {
    if serverID in m then m[serverID] else Status(serverID, NotChecked, 0, "")
  }

  function Store(m: Statuses, status: Status): Statuses {
    m[status.serverID := status]
  }

  function MarkedChecking(m: Statuses, serverID: string): Statuses {
    Store(m, Status(serverID, Checking, 0, ""))
  }

  function MarkedConnected(m: Statuses, serverID: string, at: int): Statuses {
    Store(m, Status(serverID, Connected, at, ""))
  }

  function MarkedUnavailable(m: Statuses, serverID: string, at: int, reference: string): Statuses {
    Store(m, Status(serverID, Unavailable, at, reference))
  }

  /** Each status is filed under its own server and carries a reference exactly when unavailable. */
  ghost predicate WellFormed(m: Statuses) {
    forall k | k in m ::
      && m[k].serverID == k && !m[k].state.NotChecked?
      && (m[k].state.Unavailable? <==> m[k].reference != "")
  }

  /** Marking a server is seen when it is looked up, whole, and by no other server. */
  lemma MarkThenLookup(m: Statuses, id: string, at: int, reference: string, other: string)
    ensures Lookup(MarkedChecking(m, id), id) == Status(id, Checking, 0, "")
    ensures Lookup(MarkedConnected(m, id, at), id) == Status(id, Connected, at, "")
    ensures Lookup(MarkedUnavailable(m, id, at, reference), id) == Status(id, Unavailable, at, reference)
    ensures Lookup(map[], id) == Status(id, NotChecked, 0, "")
    ensures other != id ==>
      && Lookup(MarkedChecking(m, id), other) == Lookup(m, other)
      && Lookup(MarkedConnected(m, id, at), other) == Lookup(m, other)
      && Lookup(MarkedUnavailable(m, id, at, reference), other) == Lookup(m, other)
  {
  }

  class StatusCache {
    var statuses: Statuses

    constructor ()
      ensures statuses == map[] && WellFormed(statuses)
    {
      statuses := map[];
    }

    method Get(serverID: string) returns (status: Status)
      ensures status == Lookup(statuses, serverID)
      ensures WellFormed(statuses) ==>
        status.serverID == serverID
        && (status.state.Unavailable? <==> status.reference != "")
        && (status.state.NotChecked? <==> serverID !in statuses)
    {
      if serverID !in statuses { return Status(serverID, NotChecked, 0, ""); }
      status := statuses[serverID];
    }

    method MarkChecking(serverID: string)
      modifies this
      ensures statuses == MarkedChecking(old(statuses), serverID)
      ensures old(WellFormed(statuses)) ==> WellFormed(statuses)
    {
      statuses := statuses[serverID := Status(serverID, Checking, 0, "")];
    }

    method MarkConnected(serverID: string, checkedAt: int)
      modifies this
      ensures statuses == MarkedConnected(old(statuses), serverID, checkedAt)
      ensures old(WellFormed(statuses)) ==> WellFormed(statuses)
    {
      statuses := statuses[serverID := Status(serverID, Connected, checkedAt, "")];
    }

    /** Every caller passes a reference the recorder returned, which is never empty. */
    method MarkUnavailable(serverID: string, checkedAt: int, reference: string)
      modifies this
      ensures statuses == MarkedUnavailable(old(statuses), serverID, checkedAt, reference)
      ensures old(WellFormed(statuses)) ==> (WellFormed(statuses) <==> reference != "")
    {
      statuses := statuses[serverID := Status(serverID, Unavailable, checkedAt, reference)];
      assert serverID in statuses;
    }
  }
}
