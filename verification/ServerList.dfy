/**
 The servers table with its two timestamp columns as RFC 3339 text, and the listing that asks for
 the newest first by comparing that text.
 */
module ServerList {
  import opened Wrappers
  import opened Calendar
  import opened Clock
  import opened Rfc3339
  import Text

  datatype Input = Input(name: string, address: string, connection: string)

  datatype Row = Row(input: Input, credential: Option<string>, created: string, updated: string)

  datatype Server = Server(id: string, input: Input, credential: Option<string>, created: Instant, updated: Instant)

  /** Where a listing's statement can fail: at once, scanning some row, or when iteration ends. */
  datatype ListFault = NoFault | AtQuery | AtScan(row: nat) | AtEnd

  function RowOf(s: Server): Row { Row(s.input, s.credential, Format(s.created), Format(s.updated)) }

  /** A row that both timestamps parse from, read as a server. */
  predicate ReadsAs(id: string, row: Row, s: Server) {
    Parse(row.created) == Some(s.created) && Parse(row.updated) == Some(s.updated)
    && s.id == id && s.input == row.input && s.credential == row.credential
  }

  /** ORDER BY created_at DESC: each row once, no row's text before a later row's. */
  ghost predicate Ordered(rows: map<string, Row>, order: seq<string>) {
    && (forall id | id in rows :: id in order) && (forall id | id in order :: id in rows)
    && (forall i, j | 0 <= i < j < |order| :: order[i] != order[j])
    && (forall i, j | 0 <= i < j < |order| :: !Text.LexLess(rows[order[i]].created, rows[order[j]].created))
  }

  /** The row holds what Create printed for the server. */
  lemma PrintedReads(id: string, s: Server)
    requires s.id == id
    ensures forall t :: ReadsAs(id, RowOf(s), t) <==> t == s
  {
    ParseFormat(s.created);
    ParseFormat(s.updated);
    hide Format, Parse;
  }

  /**
   Two printed rows in listing order: the later one is no newer, unless both share a second and
   one's fraction extends the other's; and then they are in the wrong order for certain.
   */
  lemma ListedOrder(first: Instant, second: Instant)
    requires !TextBefore(first, second)
    ensures first < second ==> Nested(first, second)
    ensures Nested(first, second) ==> first <= second
    ensures second < first + SECOND
  {
    TextOrder(first, second);
    if first + SECOND <= second { OneSecondApart(first, second); }
    hide Fraction, Format;
  }

  class ServerTable {
    var rows: map<string, Row>
    ghost var made: map<string, Server>

    /** Every row is what Create printed for some server. */
    ghost predicate Valid()
      reads this
    {
      made.Keys == rows.Keys && forall id | id in rows :: made[id].id == id && rows[id] == RowOf(made[id])
    }

    constructor ()
      ensures Valid() && rows == map[] && made == map[]
    {
      rows := map[];
      made := map[];
    }

    method Create(id: string, input: Input, now: Instant, fault: bool) returns (r: Option<Server>)
      requires Valid()
      modifies this
      ensures Valid()
      ensures r.Some? <==> !fault && id !in old(rows)
      ensures r.Some? ==> r.value == Server(id, input, None, now, now)
      ensures made == if r.Some? then old(made)[id := r.value] else old(made)
    {
      hide Format;
      var timestamp := Format(now);
      if fault || id in rows { return None; }
      rows := rows[id := Row(input, None, timestamp, timestamp)];
      made := made[id := Server(id, input, None, now, now)];
      r := Some(Server(id, input, None, now, now));
    }

    /** A server that was created reads back as Create returned it. */
    method Get(id: string, fault: bool) returns (r: Option<Server>)
      requires Valid()
      ensures r == if fault || id !in made then None else Some(made[id])
    {
      hide Format, Parse;
      if fault || id !in rows { return None; }
      PrintedReads(id, made[id]);
      assert ReadsAs(id, rows[id], made[id]);
      var created, updated := Parse(rows[id].created), Parse(rows[id].updated);
      if created.None? || updated.None? { return None; }
      r := Some(Server(id, rows[id].input, rows[id].credential, created.value, updated.value));
    }

    /**
     order is the one SQLite picked. Without a fault the listing is every server Create returned,
     each once, and no server is followed by one a second or more newer.
     */
    method List(order: seq<string>, fault: ListFault) returns (r: Option<seq<Server>>)
      requires Valid() && Ordered(rows, order)
      ensures r.Some? <==> (fault.NoFault? || (fault.AtScan? && fault.row >= |order|))
      ensures r.Some? ==> multiset(r.value) == multiset(made.Values)
      ensures r.Some? ==> forall i :: 0 <= i < |r.value| ==> r.value[i].id in made && r.value[i] == made[r.value[i].id]
      ensures r.Some? ==> forall i, j :: 0 <= i < j < |r.value| ==>
        r.value[j].created < r.value[i].created + SECOND
        && (r.value[i].created < r.value[j].created ==> Nested(r.value[i].created, r.value[j].created))
    {
      hide Format, Parse, Nested;
      if fault.AtQuery? { return None; }
      var servers: seq<Server> := [];
      var i := 0;
      while i < |order|
        invariant i <= |order| && |servers| == i && (fault.AtScan? ==> i <= fault.row)
        invariant forall k | 0 <= k < i :: servers[k] == made[order[k]]
      {
        if fault.AtScan? && fault.row == i { return None; }
        var id := order[i];
        PrintedReads(id, made[id]);
        assert ReadsAs(id, rows[id], made[id]);
        var created, updated := Parse(rows[id].created), Parse(rows[id].updated);
        if created.None? || updated.None? { return None; }
        servers := servers + [Server(id, rows[id].input, rows[id].credential, created.value, updated.value)];
        i := i + 1;
      }
      if fault.AtEnd? { return None; }
      ListingComplete(rows, made, order, servers);
      ListingNewestFirst(rows, made, order, servers);
      r := Some(servers);
    }
  }

  /** Distinct ids that are exactly the keys list exactly the values, if the values carry their ids. */
  lemma {:induction false} ListsValues(made: map<string, Server>, order: seq<string>, servers: seq<Server>)
    requires |servers| == |order| && forall k | 0 <= k < |order| :: order[k] in made && servers[k] == made[order[k]]
    requires forall i, j | 0 <= i < j < |order| :: order[i] != order[j]
    requires forall id | id in made :: id in order && made[id].id == id
    ensures multiset(servers) == multiset(made.Values)
  {
    forall s ensures multiset(servers)[s] == multiset(made.Values)[s] {
      DistinctCount(servers, s);
      if s in servers {
        var k :| 0 <= k < |servers| && servers[k] == s;
        assert made[order[k]] in made.Values;
      }
      if s in made.Values {
        var id :| id in made && made[id] == s;
        var k :| 0 <= k < |order| && order[k] == id;
        assert servers[k] == s;
      }
    }
  }

  lemma {:induction false} DistinctCount(servers: seq<Server>, s: Server)
    requires forall i, j | 0 <= i < j < |servers| :: servers[i] != servers[j]
    ensures multiset(servers)[s] == if s in servers then 1 else 0
  {
    if |servers| > 0 {
      var p, last := servers[..|servers| - 1], servers[|servers| - 1];
      assert servers == p + [last];
      DistinctCount(p, s);
    }
  }

  lemma ListingComplete(rows: map<string, Row>, made: map<string, Server>, order: seq<string>, servers: seq<Server>)
    requires Ordered(rows, order) && made.Keys == rows.Keys && forall id | id in made :: made[id].id == id
    requires |servers| == |order| && forall k | 0 <= k < |order| :: servers[k] == made[order[k]]
    ensures multiset(servers) == multiset(made.Values)
  {
    assert forall k | 0 <= k < |order| :: order[k] in made;
    ListsValues(made, order, servers);
  }

  lemma ListingNewestFirst(rows: map<string, Row>, made: map<string, Server>, order: seq<string>, servers: seq<Server>)
    requires Ordered(rows, order) && made.Keys == rows.Keys && forall id | id in made :: rows[id] == RowOf(made[id])
    requires |servers| == |order| && forall k | 0 <= k < |order| :: servers[k] == made[order[k]]
    ensures forall i, j | 0 <= i < j < |servers| ::
      servers[j].created < servers[i].created + SECOND
      && (servers[i].created < servers[j].created ==> Nested(servers[i].created, servers[j].created))
  {
    hide Format, Nested;
    forall i, j | 0 <= i < j < |servers|
      ensures servers[j].created < servers[i].created + SECOND
      ensures servers[i].created < servers[j].created ==> Nested(servers[i].created, servers[j].created)
    {
      assert rows[order[i]] == RowOf(servers[i]) && rows[order[j]] == RowOf(servers[j]);
      ListedOrder(servers[i].created, servers[j].created);
    }
  }
}
