/**
 The diagnostic buffer: the last two hundred records, kept in one slice that shifts in place,
 looked up newest first and listed in reverse.
 */
module Recorder {
  import opened Wrappers

  const MAX_RECORDS: nat := 200

  /** A diagnostic record: its reference, what it was recorded for, and its text. */
  datatype Record = Record(id: string, action: string, target: string, detail: string)

  function Last<T>(s: seq<T>, n: nat): (r: seq<T>)
    ensures |r| == if |s| < n then |s| else n
  {
    if |s| <= n then s else s[|s| - n..]
  }

  function Reversed<T>(s: seq<T>): (r: seq<T>)
    ensures |r| == |s|
  {
    if |s| == 0 then [] else Reversed(s[1..]) + [s[0]]
  }

  lemma {:induction false} ReversedAt<T>(s: seq<T>, k: nat)
    requires k < |s|
    ensures Reversed(s)[k] == s[|s| - 1 - k]
  {
    if k < |s| - 1 { ReversedAt(s[1..], k); }
  }

  lemma MirrorIsReversed<T>(s: seq<T>, was: seq<T>)
    requires |s| == |was| && forall k | 0 <= k < |s| :: s[k] == was[|was| - 1 - k]
    ensures s == Reversed(was)
  {
    forall k | 0 <= k < |s| ensures s[k] == Reversed(was)[k] {
      ReversedAt(was, k);
    }
  }

  /** The newest record with the reference, if any of these has it. */
  function Newest(records: seq<Record>, reference: string): Option<Record> {
    if |records| == 0 then None
    else if records[|records| - 1].id == reference then Some(records[|records| - 1])
    else Newest(records[..|records| - 1], reference)
  }

  /** Newest finds a record exactly when one has the reference, and then the last such one. */
  lemma {:induction false} NewestIsLast(records: seq<Record>, reference: string)
    ensures Newest(records, reference).Some? <==> exists i :: 0 <= i < |records| && records[i].id == reference
    ensures Newest(records, reference).Some? ==>
      exists i :: 0 <= i < |records| && records[i].id == reference && records[i] == Newest(records, reference).value
        && forall j | i < j < |records| :: records[j].id != reference
  {
    if |records| > 0 {
      var p := records[..|records| - 1];
      if records[|records| - 1].id != reference {
        NewestIsLast(p, reference);
        if Newest(p, reference).Some? {
          var i :| 0 <= i < |p| && p[i].id == reference && p[i] == Newest(p, reference).value
            && forall j | i < j < |p| :: p[j].id != reference;
          assert records[i] == p[i];
          assert forall j | i < j < |records| :: records[j].id != reference;
        } else {
          assert forall i | 0 <= i < |p| :: p[i].id != reference;
        }
      } else {
        assert records[|records| - 1].id == reference;
      }
    }
  }

  ghost predicate Distinct(records: seq<Record>) {
    forall j, k | 0 <= j < k < |records| :: records[j].id != records[k].id
  }

  lemma NewestOfDistinct(records: seq<Record>, i: nat)
    requires i < |records| && Distinct(records)
    ensures Newest(records, records[i].id) == Some(records[i])
  {
    hide Newest;
    NewestIsLast(records, records[i].id);
    var j :| 0 <= j < |records| && records[j].id == records[i].id && records[j] == Newest(records, records[i].id).value;
    assert i == j;
  }

  /** A reference issued once is found in the buffer exactly while fewer than two hundred records followed it. */
  lemma LookupWindow(history: seq<Record>, i: nat)
    requires i < |history| && Distinct(history)
    ensures Newest(Last(history, MAX_RECORDS), history[i].id)
      == if |history| - i <= 200 then Some(history[i]) else None
  {
    hide Newest;
    var kept := Last(history, MAX_RECORDS);
    var skip := |history| - |kept|;
    assert forall j | 0 <= j < |kept| :: kept[j] == history[skip + j];
    if skip <= i {
      NewestOfDistinct(kept, i - skip);
    } else {
      NewestIsLast(kept, history[i].id);
    }
  }

  class Recorder {
    const records: array<Record>
    var count: nat
    ghost var history: seq<Record>

    /** The slice holds exactly the last two hundred records ever recorded, oldest first. */
    ghost predicate Valid()
      reads this, records
    {
      && records.Length == MAX_RECORDS && count <= MAX_RECORDS
      && records[..count] == Last(history, MAX_RECORDS)
    }

    constructor (blank: Record)
      ensures Valid() && history == [] && fresh(records)
    {
      records := new Record[MAX_RECORDS](_ => blank);
      count := 0;
      history := [];
    }

    method AppendRecord(record: Record)
      requires Valid()
      modifies this, records
      ensures Valid() && history == old(history) + [record]
    {
      if count == MAX_RECORDS {
        var i := 0;
        while i < MAX_RECORDS - 1
          invariant 0 <= i <= MAX_RECORDS - 1
          invariant count == MAX_RECORDS && history == old(history)
          invariant forall k | 0 <= k < i :: records[k] == old(records[k + 1])
          invariant forall k | i <= k < MAX_RECORDS :: records[k] == old(records[k])
        {
          records[i] := records[i + 1];
          i := i + 1;
        }
        records[MAX_RECORDS - 1] := record;
        history := history + [record];
        assert records[..count] == old(records[..count])[1..] + [record];
        return;
      }
      records[count] := record;
      count := count + 1;
      history := history + [record];
      assert records[..count] == old(records[..count]) + [record];
    }

    /** Walks backwards, so the newest record with the reference wins. */
    method Lookup(reference: string) returns (r: Option<Record>)
      requires Valid()
      ensures r == Newest(Last(history, MAX_RECORDS), reference)
    {
      var index := count;
      assert records[..index] == Last(history, MAX_RECORDS);
      while index > 0
        invariant 0 <= index <= count
        invariant Newest(records[..index], reference) == Newest(Last(history, MAX_RECORDS), reference)
      {
        index := index - 1;
        assert records[..index + 1][..index] == records[..index];
        if records[index].id == reference {
          return Some(records[index]);
        }
      }
      r := None;
    }

    method Snapshot() returns (copy: array<Record>)
      requires Valid()
      ensures fresh(copy) && copy[..] == Last(history, MAX_RECORDS)
    {
      var kept := records[..count];
      copy := new Record[count](i requires 0 <= i < |kept| => kept[i]);
      assert copy[..] == kept;
    }
  }

  /** HandleList's swap loop. */
  method ReverseInPlace(a: array<Record>)
    modifies a
    ensures a[..] == Reversed(old(a[..]))
  {
    ghost var was := a[..];
    var left, right := 0, a.Length - 1;
    while left < right
      invariant 0 <= left <= right + 1 && left + right == a.Length - 1
      invariant forall k | 0 <= k < left :: a[k] == was[a.Length - 1 - k] && a[a.Length - 1 - k] == was[k]
      invariant forall k | left <= k <= right :: a[k] == was[k]
    {
      a[left], a[right] := a[right], a[left];
      left, right := left + 1, right - 1;
    }
    MirrorIsReversed(a[..], was);
  }

  /** The Error Log lists the last two hundred records, newest first. */
  method ListNewestFirst(recorder: Recorder) returns (list: array<Record>)
    requires recorder.Valid()
    ensures fresh(list)
    ensures list.Length == if |recorder.history| < 200 then |recorder.history| else 200
    ensures forall k | 0 <= k < list.Length :: list[k] == recorder.history[|recorder.history| - 1 - k]
  {
    list := recorder.Snapshot();
    ghost var kept := list[..];
    ReverseInPlace(list);
    forall k | 0 <= k < list.Length ensures list[k] == recorder.history[|recorder.history| - 1 - k] {
      ReversedAt(kept, k);
      assert list[..][k] == list[k];
    }
  }
}
