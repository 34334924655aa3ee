/** Keeping the last lines of a container log. */
module LogLines {
  import Text

  /** Lines in s: one per newline, and one for text after the last newline. */
  function LineCount(s: string): nat {
    if s == "" then 0
    else if |s| == 1 then 1
    else LineCount(s[1..]) + (if s[0] == '\n' then 1 else 0)
  }

  /** A line begins at k: at the front, or just after a newline. */
  predicate LineStart(s: string, k: nat) {
    k <= |s| && (k == 0 || s[k - 1] == '\n')
  }

  predicate EndsWithNewline(s: string) { s != "" && s[|s| - 1] == '\n' }

  /** The longest suffix that begins a line and has at most this many lines. */
  ghost predicate LongestTail(s: string, r: string, maximum: nat) {
    && |r| <= |s| && r == s[|s| - |r|..] && LineStart(s, |s| - |r|)
    && LineCount(r) <= maximum
    && forall k: nat | k < |s| - |r| && LineStart(s, k) :: LineCount(s[k..]) > maximum
  }

  /** Lines joined again, with a final newline if there was one. */
  function Chunk(lines: seq<string>, final: bool): string {
    Text.Join(lines, '\n') + (if final then "\n" else "")
  }

  ghost predicate NoNewlines(lines: seq<string>) { forall l | l in lines :: '\n' !in l }

  /** These lines make a text with as many lines. */
  ghost predicate Countable(lines: seq<string>, final: bool) {
    |lines| >= 1 && NoNewlines(lines) && (final || lines[|lines| - 1] != "")
  }

  lemma ChunkHead(lines: seq<string>, final: bool)
    requires |lines| >= 2
    ensures Chunk(lines, final) == lines[0] + "\n" + Chunk(lines[1..], final)
  {
  }

  lemma {:induction false} CountHead(head: string, tail: string)
    requires '\n' !in head
    ensures LineCount(head + "\n" + tail) == 1 + LineCount(tail)
    ensures LineCount(head) == if head == "" then 0 else 1
  {
    var s := head + "\n" + tail;
    if head == "" {
      assert s[1..] == tail;
    } else {
      CountHead(head[1..], tail);
      assert head[0] in head;
      assert s[1..] == head[1..] + "\n" + tail;
    }
  }

  lemma {:induction false} ChunkCount(lines: seq<string>, final: bool)
    requires Countable(lines, final)
    ensures LineCount(Chunk(lines, final)) == |lines|
  {
    assert lines[0] in lines;
    if |lines| == 1 {
      CountHead(lines[0], "");
      assert Chunk(lines, true) == lines[0] + "\n" + "";
      assert Chunk(lines, false) == lines[0];
    } else {
      assert Countable(lines[1..], final) by { assert forall l | l in lines[1..] :: l in lines; }
      ChunkHead(lines, final);
      CountHead(lines[0], Chunk(lines[1..], final));
      ChunkCount(lines[1..], final);
    }
  }

  /** A line start after the first line is a line start of the rest. */
  lemma ShiftStart(head: string, tail: string, k: nat)
    requires '\n' !in head && 0 < k && LineStart(head + "\n" + tail, k)
    ensures |head| + 1 <= k && LineStart(tail, k - |head| - 1)
    ensures (head + "\n" + tail)[k..] == tail[k - |head| - 1..]
  {
    var s := head + "\n" + tail;
    forall j | 0 <= j < |head| ensures s[j] != '\n' { assert head[j] in head; }
  }

  /** A longest tail stays longest behind one more line that does not fit. */
  lemma ExtendTail(head: string, tail: string, r: string, maximum: nat)
    requires '\n' !in head && LongestTail(tail, r, maximum) && LineCount(head + "\n" + tail) > maximum
    ensures LongestTail(head + "\n" + tail, r, maximum)
  {
    hide LineCount;
    var s := head + "\n" + tail;
    assert s[|head| + 1..] == tail;
    assert s[|s| - |r|..] == tail[|tail| - |r|..];
    forall k: nat | k < |s| - |r| && LineStart(s, k) ensures LineCount(s[k..]) > maximum {
      if k > 0 { ShiftStart(head, tail, k); } else { assert s[0..] == s; }
    }
  }

  lemma WholeIsLongest(s: string, maximum: nat)
    requires LineCount(s) <= maximum
    ensures LongestTail(s, s, maximum)
  {
    assert s[0..] == s;
  }

  /** Dropping d lines leaves the longest tail with at most the remaining number of lines. */
  lemma {:induction false} DropIsLongest(lines: seq<string>, final: bool, d: nat)
    requires Countable(lines, final) && d < |lines|
    ensures LongestTail(Chunk(lines, final), Chunk(lines[d..], final), |lines| - d)
  {
    hide LongestTail, Chunk, LineCount;
    ChunkCount(lines, final);
    if d == 0 {
      assert lines[0..] == lines;
      WholeIsLongest(Chunk(lines, final), |lines|);
    } else {
      assert lines[0] in lines;
      assert Countable(lines[1..], final) by { assert forall l | l in lines[1..] :: l in lines; }
      ChunkHead(lines, final);
      DropIsLongest(lines[1..], final, d - 1);
      assert lines[1..][d - 1..] == lines[d..];
      ExtendTail(lines[0], Chunk(lines[1..], final), Chunk(lines[d..], final), |lines| - d);
    }
  }

  /** The lines of a text, without the empty part after a final newline. */
  function Lines(data: string): seq<string> {
    var all := Text.Split(data, '\n');
    if EndsWithNewline(data) then all[..|all| - 1] else all
  }

  lemma {:induction false} LastPart(data: string)
    ensures var all := Text.Split(data, '\n');
      (EndsWithNewline(data) || data == "" <==> all[|all| - 1] == "") && (EndsWithNewline(data) ==> |all| >= 2)
  {
    if |data| >= 1 {
      LastPart(data[1..]);
      if |data| == 1 { assert data[1..] == ""; } else { assert data[|data| - 1] == data[1..][|data| - 2]; }
    }
  }

  lemma {:induction false} JoinSnocEmpty(parts: seq<string>)
    requires |parts| >= 1
    ensures Text.Join(parts + [""], '\n') == Text.Join(parts, '\n') + "\n"
  {
    if |parts| > 1 {
      JoinSnocEmpty(parts[1..]);
      assert (parts + [""])[1..] == parts[1..] + [""];
    } else {
      assert (parts + [""])[1..] == [""];
    }
  }

  lemma ChunkOfLines(data: string)
    ensures |Lines(data)| >= 1 && NoNewlines(Lines(data))
    ensures Chunk(Lines(data), EndsWithNewline(data)) == data
    ensures data != "" ==> Countable(Lines(data), EndsWithNewline(data))
  {
    var all := Text.Split(data, '\n');
    Text.JoinSplit(data, '\n');
    LastPart(data);
    if EndsWithNewline(data) {
      assert all == all[..|all| - 1] + [""];
      JoinSnocEmpty(all[..|all| - 1]);
    }
  }

  /** boundLogLines as one expression. */
  function Bounded(data: string, maximum: nat): string {
    var lines := Lines(data);
    Chunk(if |lines| > maximum then lines[|lines| - maximum..] else lines, EndsWithNewline(data))
  }

  /** The result is the longest tail within the bound exactly when the bound is positive or the log empty. */
  lemma BoundedIsLongestTail(data: string, maximum: nat)
    ensures LongestTail(data, Bounded(data, maximum), maximum) <==> maximum >= 1 || data == ""
  {
    hide Text.Split, Text.Join, LongestTail, Chunk, LineCount, Lines;
    var lines, final := Lines(data), EndsWithNewline(data);
    ChunkOfLines(data);
    if data == "" {
      EmptyLog(maximum);
    } else if maximum == 0 {
      assert lines[|lines|..] == [];
      ZeroLines(data);
    } else if |lines| > maximum {
      DropIsLongest(lines, final, |lines| - maximum);
    } else {
      ChunkCount(lines, final);
      WholeIsLongest(data, maximum);
    }
  }

  lemma EmptyLog(maximum: nat)
    ensures Bounded("", maximum) == "" && LongestTail("", "", maximum)
  {
    assert Text.Split("", '\n') == [""];
    assert [""][1..] == [];
  }

  lemma ZeroLines(data: string)
    requires data != ""
    ensures Chunk([], EndsWithNewline(data)) == if EndsWithNewline(data) then "\n" else ""
    ensures !LongestTail(data, Chunk([], EndsWithNewline(data)), 0)
  {
    assert LineCount("\n") == 1;
  }

  /** The last maximum lines of the data, as the client returns them. */
  method BoundLogLines(data: string, maximum: nat) returns (bounded: string)
    ensures maximum >= 1 ==> LongestTail(data, bounded, maximum)
    ensures bounded == Bounded(data, maximum)
  {
    var endsWithNewline := EndsWithNewline(data);
    var lines := Text.Split(data, '\n');
    if endsWithNewline { lines := lines[..|lines| - 1]; }
    if |lines| > maximum { lines := lines[|lines| - maximum..]; }
    bounded := Text.Join(lines, '\n');
    if endsWithNewline { bounded := bounded + "\n"; }
    BoundedIsLongestTail(data, maximum);
    assert bounded == Bounded(data, maximum) by {
      assert endsWithNewline ==> Text.Join(lines, '\n') + "\n" == bounded;
      assert !endsWithNewline ==> Text.Join(lines, '\n') + "" == bounded;
    }
  }
}
