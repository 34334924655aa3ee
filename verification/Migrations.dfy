/**
 Forward-only schema migrations: load, sort and check the numbered files, check what is already
 recorded, then apply the rest, each with its record in one transaction. The schema is any type;
 executing a query either fails or gives the next schema.
 */
module Migrations {
  import opened Wrappers
  import Text

  datatype Migration = Migration(version: int, name: string, query: string)

  // ---------- loading ----------

  /** A directory entry: query is the trimmed contents, or None if the file cannot be read. */
  datatype File = File(name: string, isDirectory: bool, query: Option<string>)

  predicate IsSql(name: string) { |name| >= 4 && name[|name| - 4..] == ".sql" }

  /** NNNN_description.sql, where NNNN is four bytes that read as a positive integer. */
  function ParseVersion(filename: string): Option<int> {
    var base := if IsSql(filename) then filename[..|filename| - 4] else filename;
    var head := Text.Split(base, '_')[0];
    if |head| != 4 || |base| <= 5 then None
    else
      var version := Text.ParseInt64(head);
      if version.None? || version.value < 1 then None else version
  }

  /** NNNN, an underscore, a description and the extension. */
  predicate VersionName(filename: string, head: string, description: string, version: int) {
    && filename == head + "_" + description + ".sql" && |head| == 4 && '_' !in head && description != ""
    && Text.ParseInt64(head) == Some(version) && version >= 1
  }

  /** Exactly which .sql file names carry a version, and which. */
  lemma ParseVersionExactly(filename: string, version: int)
    requires IsSql(filename)
    ensures ParseVersion(filename) == Some(version)
      <==> exists head, description :: VersionName(filename, head, description, version)
  {
    hide Text.Split, Text.ParseInt64, Text.Join;
    var base := filename[..|filename| - 4];
    var parts := Text.Split(base, '_');
    assert filename == base + ".sql";
    if ParseVersion(filename) == Some(version) {
      Text.JoinSplit(base, '_');
      SplitBase(base, parts);
      var description := base[5..];
      assert VersionName(filename, parts[0], description, version);
    }
    forall head, description | VersionName(filename, head, description, version)
      ensures ParseVersion(filename) == Some(version)
    {
      assert base == head + ['_'] + description by { assert (head + "_" + description + ".sql")[..|base|] == base; }
      Text.SplitHead(head, description, '_');
    }
  }

  lemma SplitBase(base: string, parts: seq<string>)
    requires |parts| >= 1 && Text.Join(parts, '_') == base && |parts[0]| == 4 && |base| > 5
    ensures base == parts[0] + "_" + base[5..]
  {
  }

  /** In particular every four-digit number from 0001 to 9999 is read as itself. */
  lemma FourDigitsRead(n: nat, description: string)
    requires 1 <= n <= 9999 && description != ""
    ensures ParseVersion(Text.Fixed(n, 4) + "_" + description + ".sql") == Some(n)
  {
    var head := Text.Fixed(n, 4);
    var filename := head + "_" + description + ".sql";
    assert filename[|filename| - 4..] == ".sql";
    assert Text.Pow10(2) == 100 && Text.Pow10(4) == 10000;
    Text.FixedValue(n, 4);
    hide Text.Fixed, Text.Value, Text.Pow10;
    assert Text.IsDigit(head[0]);
    assert VersionName(filename, head, description, n);
    ParseVersionExactly(filename, n);
  }

  function ParseFile(f: File): Option<Migration> {
    var version := ParseVersion(f.name);
    if version.None? || f.query.None? || f.query.value == "" then None
    else Some(Migration(version.value, f.name, f.query.value))
  }

  /** Directories and other files are skipped; one bad migration file spoils the load. */
  function ParseFiles(files: seq<File>): Option<seq<Migration>> {
    if |files| == 0 then Some([])
    else if files[0].isDirectory || !IsSql(files[0].name) then ParseFiles(files[1..])
    else
      var first, rest := ParseFile(files[0]), ParseFiles(files[1..]);
      if first.None? || rest.None? then None else Some([first.value] + rest.value)
  }

  function Insert(m: Migration, sorted: seq<Migration>): seq<Migration> {
    if |sorted| == 0 || m.version <= sorted[0].version then [m] + sorted
    else [sorted[0]] + Insert(m, sorted[1..])
  }

  function Sort(ms: seq<Migration>): seq<Migration> {
    if |ms| == 0 then [] else Insert(ms[0], Sort(ms[1..]))
  }

  /** validateMigrationSequence: position i carries version i + 1. */
  predicate Sequential(ms: seq<Migration>) {
    forall i | 0 <= i < |ms| :: ms[i].version == i + 1
  }

  function Load(files: seq<File>): Option<seq<Migration>> {
    var parsed := ParseFiles(files);
    if parsed.None? || !Sequential(Sort(parsed.value)) then None else Some(Sort(parsed.value))
  }

  predicate SortedByVersion(ms: seq<Migration>) {
    forall i, j | 0 <= i < j < |ms| :: ms[i].version <= ms[j].version
  }

  /** What sort.Slice may return: any arrangement in version order. */
  ghost predicate Arrangement(r: seq<Migration>, ms: seq<Migration>) {
    SortedByVersion(r) && multiset(r) == multiset(ms)
  }

  lemma {:induction false} InsertContents(m: Migration, s: seq<Migration>)
    ensures multiset(Insert(m, s)) == multiset(s) + multiset{m}
  {
    if |s| > 0 && m.version > s[0].version {
      InsertContents(m, s[1..]);
      assert s == [s[0]] + s[1..];
    }
  }

  lemma SortedCons(m: Migration, s: seq<Migration>)
    requires SortedByVersion(s) && forall x | x in s :: m.version <= x.version
    ensures SortedByVersion([m] + s)
  {
  }

  lemma {:induction false} InsertSorted(m: Migration, s: seq<Migration>)
    requires SortedByVersion(s)
    ensures SortedByVersion(Insert(m, s))
  {
    if |s| == 0 || m.version <= s[0].version {
      SortedCons(m, s);
    } else {
      InsertSorted(m, s[1..]);
      InsertContents(m, s[1..]);
      var r := Insert(m, s[1..]);
      forall x | x in r ensures s[0].version <= x.version {
        assert x in multiset(r);
        assert x == m || x in s[1..];
      }
      SortedCons(s[0], r);
    }
  }

  lemma {:induction false} SortArranges(ms: seq<Migration>)
    ensures Arrangement(Sort(ms), ms)
  {
    if |ms| > 0 {
      SortArranges(ms[1..]);
      InsertSorted(ms[0], Sort(ms[1..]));
      InsertContents(ms[0], Sort(ms[1..]));
      assert ms == [ms[0]] + ms[1..];
    }
  }

  /** The versions are one to n, each once, in whatever order. */
  ghost predicate Complete(ms: seq<Migration>) {
    && (forall i | 0 <= i < |ms| :: 1 <= ms[i].version <= |ms|)
    && (forall i, j | 0 <= i < j < |ms| :: ms[i].version != ms[j].version)
  }

  /** Sorted distinct versions within one to n leave no room for a gap. */
  lemma {:induction false} DistinctFill(ms: seq<Migration>, n: nat)
    requires SortedByVersion(ms) && |ms| <= n
    requires forall i | 0 <= i < |ms| :: 1 <= ms[i].version <= n
    requires forall i, j | 0 <= i < j < |ms| :: ms[i].version != ms[j].version
    ensures forall i | 0 <= i < |ms| :: i + 1 <= ms[i].version <= n - |ms| + i + 1
  {
    if |ms| > 0 {
      var last := |ms| - 1;
      FromBelow(ms, last);
      forall i | 0 <= i < |ms| ensures i + 1 <= ms[i].version <= n - |ms| + i + 1 {
        FromBelow(ms, i);
        FromAbove(ms, i, n);
      }
    }
  }

  lemma {:induction false} FromBelow(ms: seq<Migration>, i: nat)
    requires i < |ms| && SortedByVersion(ms) && forall k | 0 <= k < |ms| :: 1 <= ms[k].version
    requires forall k, j | 0 <= k < j < |ms| :: ms[k].version != ms[j].version
    ensures i + 1 <= ms[i].version
  {
    if i > 0 {
      FromBelow(ms, i - 1);
      assert ms[i - 1].version <= ms[i].version && ms[i - 1].version != ms[i].version;
    }
  }

  lemma {:induction false} FromAbove(ms: seq<Migration>, i: nat, n: nat)
    requires i < |ms| && SortedByVersion(ms) && forall k | 0 <= k < |ms| :: ms[k].version <= n
    requires forall k, j | 0 <= k < j < |ms| :: ms[k].version != ms[j].version
    ensures ms[i].version <= n - |ms| + i + 1
    decreases |ms| - i
  {
    if i < |ms| - 1 {
      FromAbove(ms, i + 1, n);
      assert ms[i].version <= ms[i + 1].version && ms[i].version != ms[i + 1].version;
    }
  }

  lemma MultisetIndex<T>(s: seq<T>, t: seq<T>, i: nat) returns (k: nat)
    requires multiset(s) == multiset(t) && i < |s|
    ensures k < |t| && t[k] == s[i]
  {
    assert s[i] in multiset(s);
    assert s[i] in t;
    k :| k < |t| && t[k] == s[i];
  }

  lemma MultisetLength<T>(s: seq<T>, t: seq<T>)
    requires multiset(s) == multiset(t)
    ensures |s| == |t|
  {
    assert |multiset(s)| == |s| && |multiset(t)| == |t|;
  }

  /** Two places holding one value make its multiplicity two. */
  lemma Repeated<T>(s: seq<T>, i: nat, j: nat)
    requires i < j < |s| && s[i] == s[j]
    ensures multiset(s)[s[i]] >= 2
  {
    var t := s[..j] + s[j + 1..];
    assert s == s[..j] + [s[j]] + s[j + 1..];
    assert multiset(s) == multiset(t) + multiset{s[j]};
    assert t[i] == s[i] && t[i] in t;
  }

  lemma DistinctCounts(s: seq<Migration>, m: Migration)
    requires forall i, j | 0 <= i < j < |s| :: s[i].version != s[j].version
    ensures multiset(s)[m] <= 1
    decreases |s|
  {
    if |s| > 0 {
      DistinctCounts(s[..|s| - 1], m);
      assert s == s[..|s| - 1] + [s[|s| - 1]];
      if s[|s| - 1] == m { assert m !in s[..|s| - 1]; }
    }
  }

  /** Rearranging keeps completeness. */
  lemma CompletePermutes(r: seq<Migration>, ms: seq<Migration>)
    requires multiset(r) == multiset(ms) && Complete(ms)
    ensures Complete(r)
  {
    MultisetLength(r, ms);
    forall i | 0 <= i < |r| ensures 1 <= r[i].version <= |r| {
      var k := MultisetIndex(r, ms, i);
    }
    forall i, j | 0 <= i < j < |r| ensures r[i].version != r[j].version {
      if r[i].version == r[j].version {
        var k := MultisetIndex(r, ms, i);
        var l := MultisetIndex(r, ms, j);
        assert k == l;
        Repeated(r, i, j);
        DistinctCounts(ms, r[i]);
      }
    }
  }

  /** However the files are listed and the sort arranges ties, the check passes exactly for versions one to n. */
  lemma SequentialExactly(r: seq<Migration>, ms: seq<Migration>)
    requires Arrangement(r, ms)
    ensures Sequential(r) <==> Complete(ms)
  {
    MultisetLength(r, ms);
    if Complete(ms) {
      CompletePermutes(r, ms);
      DistinctFill(r, |r|);
    }
    if Sequential(r) {
      assert Complete(r);
      CompletePermutes(ms, r);
    }
  }

  /** ... and then there is only one arrangement. */
  lemma SequentialUnique(r: seq<Migration>, s: seq<Migration>)
    requires Sequential(r) && Sequential(s) && multiset(r) == multiset(s)
    ensures r == s
  {
    MultisetLength(r, s);
    forall i | 0 <= i < |r| ensures r[i] == s[i] {
      var k := MultisetIndex(r, s, i);
    }
  }

  /** Loading succeeds exactly when the parsed versions are one to n, and returns them in order. */
  lemma LoadExactly(files: seq<File>, ms: seq<Migration>)
    requires ParseFiles(files) == Some(ms)
    ensures Load(files).Some? <==> Complete(ms)
    ensures Load(files).Some? ==> Sequential(Load(files).value) && multiset(Load(files).value) == multiset(ms)
  {
    SortArranges(ms);
    SequentialExactly(Sort(ms), ms);
  }

  /** The two listings parse alike: both fail, or both give the same migrations. */
  ghost predicate ParseAlike(f: seq<File>, g: seq<File>) {
    var a, b := ParseFiles(f), ParseFiles(g);
    a.Some? == b.Some? && (a.Some? ==> multiset(a.value) == multiset(b.value))
  }

  lemma ParseCons(x: File, f: seq<File>)
    ensures ParseFiles([x] + f) ==
      if x.isDirectory || !IsSql(x.name) then ParseFiles(f)
      else if ParseFile(x).None? || ParseFiles(f).None? then None
      else Some([ParseFile(x).value] + ParseFiles(f).value)
  {
    assert ([x] + f)[1..] == f;
    hide ParseFile, IsSql;
  }

  lemma ConsAlike(x: File, f: seq<File>, g: seq<File>)
    requires ParseAlike(f, g)
    ensures ParseAlike([x] + f, [x] + g)
  {
    hide ParseFile, IsSql, ParseFiles;
    ParseCons(x, f);
    ParseCons(x, g);
  }

  lemma SwapAlike(x: File, y: File, f: seq<File>)
    ensures ParseAlike([x] + ([y] + f), [y] + ([x] + f))
  {
    hide ParseFile, IsSql, ParseFiles;
    ParseCons(x, f);
    ParseCons(y, f);
    ParseCons(x, [y] + f);
    ParseCons(y, [x] + f);
  }

  /** The k-th element taken out, as seen from the second element on. */
  lemma TakenOut<T>(g: seq<T>, k: nat)
    requires 0 < k < |g|
    ensures
      var u := g[1..k] + g[k + 1..];
      && g[1..][..k - 1] + g[1..][k..] == u
      && g[..k] + g[k + 1..] == [g[0]] + u
      && g == [g[0]] + g[1..]
  {
  }

  /** Listing an entry first instead of where it stands makes no difference. */
  lemma {:induction false} FrontAlike(g: seq<File>, k: nat)
    requires k < |g|
    ensures ParseAlike(g, [g[k]] + (g[..k] + g[k + 1..]))
  {
    hide ParseAlike;
    if k == 0 {
      assert [g[0]] + (g[..0] + g[1..]) == g;
      PermutedSelf(g);
    } else {
      var u := g[1..k] + g[k + 1..];
      TakenOut(g, k);
      FrontAlike(g[1..], k - 1);
      ConsAlike(g[0], g[1..], [g[k]] + u);
      SwapAlike(g[0], g[k], u);
      AlikeTransitive(g, [g[0]] + ([g[k]] + u), [g[k]] + ([g[0]] + u));
    }
  }

  lemma PermutedSelf(f: seq<File>)
    ensures ParseAlike(f, f)
  {
  }

  lemma AlikeTransitive(f: seq<File>, g: seq<File>, h: seq<File>)
    requires ParseAlike(f, g) && (ParseAlike(g, h) || ParseAlike(h, g))
    ensures ParseAlike(f, h) && ParseAlike(h, f)
  {
    hide ParseFiles;
  }

  lemma RemoveAt<T>(s: seq<T>, k: nat)
    requires k < |s|
    ensures multiset(s) == multiset(s[..k] + s[k + 1..]) + multiset{s[k]}
  {
    assert s == s[..k] + [s[k]] + s[k + 1..];
  }

  lemma Cancel<T>(a: multiset<T>, b: multiset<T>, x: T)
    requires a + multiset{x} == b + multiset{x}
    ensures a == b
  {
    forall y ensures a[y] == b[y] { assert (a + multiset{x})[y] == (b + multiset{x})[y]; }
  }

  lemma SameRest<T>(s: seq<T>, t: seq<T>, k: nat)
    requires |s| > 0 && k < |t| && t[k] == s[0] && multiset(s) == multiset(t)
    ensures multiset(s[1..]) == multiset(t[..k] + t[k + 1..])
  {
    RemoveAt(s, 0);
    RemoveAt(t, k);
    assert s[..0] + s[1..] == s[1..];
    Cancel(multiset(s[1..]), multiset(t[..k] + t[k + 1..]), s[0]);
  }

  lemma {:induction false} PermutedAlike(f: seq<File>, g: seq<File>)
    requires multiset(f) == multiset(g)
    ensures ParseAlike(f, g)
    decreases |f|
  {
    MultisetLength(f, g);
    if |f| > 0 {
      hide ParseAlike;
      var k := MultisetIndex(f, g, 0);
      var others := g[..k] + g[k + 1..];
      SameRest(f, g, k);
      PermutedAlike(f[1..], others);
      FrontAlike(g, k);
      ConsAlike(f[0], f[1..], others);
      assert f == [f[0]] + f[1..];
      AlikeTransitive(g, [f[0]] + others, f);
    }
  }

  /** So the order of the directory listing never changes the outcome. */
  lemma LoadOrderFree(files: seq<File>, listed: seq<File>)
    requires multiset(files) == multiset(listed)
    ensures Load(listed) == Load(files)
  {
    PermutedAlike(files, listed);
    hide ParseFiles;
    if ParseFiles(files).Some? {
      var a, b := ParseFiles(files).value, ParseFiles(listed).value;
      SortArranges(a);
      SortArranges(b);
      SequentialExactly(Sort(a), a);
      SequentialExactly(Sort(b), a);
      if Complete(a) { SequentialUnique(Sort(a), Sort(b)); }
    }
  }

  /** A file that a migration is read from: only directories and other extensions are passed over. */
  predicate Selected(f: File) { !f.isDirectory && |f.name| >= 4 && f.name[|f.name| - 4..] == ".sql" }

  /** A selected file whose name carries a version and whose contents are readable and not blank. */
  predicate Readable(f: File) { ParseVersion(f.name).Some? && f.query.Some? && f.query.value != "" }

  /** One file alone gives its migration, nothing, or an error. */
  lemma OneFileParses(f: File)
    ensures ParseFiles([f]) ==
      if !Selected(f) then Some([])
      else if !Readable(f) then None
      else Some([Migration(ParseVersion(f.name).value, f.name, f.query.value)])
  {
    NoFiles();
    ParseCons(f, []);
    assert [f] + [] == [f];
    hide ParseVersion, ParseFiles;
    if Selected(f) && Readable(f) {
      var m := Migration(ParseVersion(f.name).value, f.name, f.query.value);
      assert [m] + [] == [m];
    }
  }

  /** A listing gives, in order, what its files give, and fails if one of them does. */
  lemma {:induction false} ListingsParse(f: seq<File>, g: seq<File>)
    ensures
      var a, b := ParseFiles(f), ParseFiles(g);
      ParseFiles(f + g) == if a.None? || b.None? then None else Some(a.value + b.value)
  {
    if |f| == 0 {
      NoFiles();
      assert f == [] && f + g == g;
      if ParseFiles(g).Some? { assert [] + ParseFiles(g).value == ParseFiles(g).value; }
    } else {
      hide ParseFile, IsSql, ParseFiles;
      ListingsParse(f[1..], g);
      ParseCons(f[0], f[1..]);
      ParseCons(f[0], f[1..] + g);
      assert f == [f[0]] + f[1..] && f + g == [f[0]] + (f[1..] + g);
      var x, a, b := ParseFile(f[0]), ParseFiles(f[1..]), ParseFiles(g);
      if x.Some? && a.Some? && b.Some? {
        assert [x.value] + (a.value + b.value) == [x.value] + a.value + b.value;
      }
    }
  }

  lemma NextFile(files: seq<File>, i: nat, done: seq<Migration>)
    requires i < |files|
    ensures
      var rest, after := ParseFiles(files[i..]), ParseFiles(files[i + 1..]);
      var skipped, first := files[i].isDirectory || !IsSql(files[i].name), ParseFile(files[i]);
      && (skipped ==> rest == after)
      && (!skipped && first.None? ==> rest == None)
      && (!skipped && first.Some? ==> (rest.Some? <==> after.Some?))
      && (!skipped && first.Some? && rest.Some? ==> done + rest.value == done + [first.value] + after.value)
  {
    assert files[i..][1..] == files[i + 1..];
    hide ParseFile, IsSql;
  }

  /** Appends what each entry parses to, and stops at the first that does not. */
  method ParseMigrationEntries(entries: seq<File>) returns (r: Option<seq<Migration>>)
    ensures r == ParseFiles(entries)
  {
    hide ParseFile, IsSql, ParseFiles;
    var migrations: seq<Migration> := [];
    var i := 0;
    assert entries[0..] == entries;
    while i < |entries|
      invariant 0 <= i <= |entries|
      invariant ParseFiles(entries).Some? <==> ParseFiles(entries[i..]).Some?
      invariant ParseFiles(entries).Some? ==> ParseFiles(entries).value == migrations + ParseFiles(entries[i..]).value
    {
      NextFile(entries, i, migrations);
      if !entries[i].isDirectory && IsSql(entries[i].name) {
        var parsed := ParseFile(entries[i]);
        if parsed.None? { return None; }
        migrations := migrations + [parsed.value];
      }
      i := i + 1;
    }
    NoFiles();
    assert entries[|entries|..] == [] && migrations + [] == migrations;
    r := Some(migrations);
  }

  lemma NoFiles()
    ensures ParseFiles([]) == Some([])
  {
  }

  /**
   arranged is how sort.Slice leaves the parsed migrations. Loading succeeds exactly for versions
   one to n, each once, and then returns them in order, however the directory lists its files.
   */
  method LoadMigrations(files: seq<File>, arranged: seq<Migration>) returns (r: Option<seq<Migration>>)
    requires ParseFiles(files).Some? ==> Arrangement(arranged, ParseFiles(files).value)
    ensures r == Load(files)
    ensures r.Some? <==> ParseFiles(files).Some? && Complete(ParseFiles(files).value)
  {
    hide ParseFiles, Sort, Complete, Arrangement;
    var parsed := ParseMigrationEntries(files);
    if parsed.None? { return None; }
    SortArranges(parsed.value);
    SequentialExactly(arranged, parsed.value);
    SequentialExactly(Sort(parsed.value), parsed.value);
    var index := 0;
    while index < |arranged|
      invariant 0 <= index <= |arranged| && forall i | 0 <= i < index :: arranged[i].version == i + 1
    {
      if arranged[index].version != index + 1 { return None; }
      index := index + 1;
    }
    SameArrangement(arranged, Sort(parsed.value), parsed.value);
    r := Some(arranged);
  }

  lemma SameArrangement(r: seq<Migration>, s: seq<Migration>, ms: seq<Migration>)
    requires Arrangement(r, ms) && Arrangement(s, ms) && Sequential(r) && Sequential(s)
    ensures r == s
  {
    SequentialUnique(r, s);
  }

  // ---------- applying ----------

  /** The version table (absent until created) and the schema. */
  datatype Db<S> = Db(hasTable: bool, recorded: map<int, string>, schema: S)

  type Exec<!S> = (S, string) -> Option<S>

  /** Where a transaction fails. A failed commit may turn out to have been durable. */
  datatype TxFault = NoFault | AtBegin | AtExecute | AtRecord | AtCommit(durable: bool)

  /** One start of the program: its files' migrations, and the faults it meets by version. */
  datatype Run = Run(build: Option<seq<Migration>>, tableFails: bool, readFails: bool, faults: int -> TxFault)

  function Record<S>(db: Db<S>, m: Migration, schema: S): Db<S> {
    db.(recorded := db.recorded[m.version := m.name], schema := schema)
  }

  function ApplyOne<S>(exec: Exec<S>, db: Db<S>, m: Migration, fault: TxFault): (Db<S>, bool) {
    var next := exec(db.schema, m.query);
    if fault.AtBegin? || fault.AtExecute? || next.None? then (db, false)
    else if fault.AtRecord? || m.version in db.recorded then (db, false)
    else if fault.AtCommit? then (if fault.durable then Record(db, m, next.value) else db, false)
    else (Record(db, m, next.value), true)
  }

  function ApplyAll<S>(exec: Exec<S>, db: Db<S>, pending: seq<Migration>, faults: int -> TxFault): (Db<S>, bool)
    decreases |pending|
  {
    if |pending| == 0 then (db, true)
    else
      var (next, ok) := ApplyOne(exec, db, pending[0], faults(pending[0].version));
      if !ok then (next, false) else ApplyAll(exec, next, pending[1..], faults)
  }

  ghost function MinKey(m: map<int, string>): (k: int)
    requires m != map[]
    ensures k in m && forall j | j in m :: k <= j
  {
    MinExists(m.Keys);
    var k :| k in m.Keys && forall j | j in m.Keys :: k <= j;
    k
  }

  lemma Member<T>(s: set<T>) returns (x: T)
    requires s != {}
    ensures x in s
  {
    x :| x in s;
  }

  lemma {:induction false} MinExists(s: set<int>)
    requires s != {}
    ensures exists k :: k in s && forall j | j in s :: k <= j
  {
    var x := Member(s);
    if s - {x} != {} {
      MinExists(s - {x});
      var y :| y in s - {x} && forall j | j in s - {x} :: y <= j;
      var least := if x <= y then x else y;
      assert forall j | j in s :: j == x || j in s - {x};
      assert least in s && forall j | j in s :: least <= j;
    } else {
      assert s == {x};
    }
  }

  /** SELECT version, name ... ORDER BY version */
  ghost function Rows(m: map<int, string>): seq<(int, string)>
    decreases |m|
  {
    if m == map[] then []
    else
      var k := MinKey(m);
      assert |m - {k}| < |m| by {
        assert (m - {k}).Keys == m.Keys - {k};
        assert |(m - {k}).Keys| == |m - {k}| && |m.Keys| == |m|;
      }
      [(k, m[k])] + Rows(m - {k})
  }

  /** validateAppliedMigrations */
  predicate Compatible(build: seq<Migration>, applied: seq<(int, string)>) {
    |applied| <= |build| && forall i | 0 <= i < |applied| :: applied[i] == (build[i].version, build[i].name)
  }

  /** migrate: the resulting database, and whether it returned no error. */
  ghost function Migrate<S>(exec: Exec<S>, db: Db<S>, run: Run): (Db<S>, bool) {
    if run.build.None? || run.tableFails then (db, false)
    else
      var created := db.(hasTable := true);
      var applied := Rows(created.recorded);
      if run.readFails || !Compatible(run.build.value, applied) then (created, false)
      else ApplyAll(exec, created, run.build.value[|applied|..], run.faults)
  }

  function NameOf(ms: seq<Migration>, version: int): string
    requires 1 <= version <= |ms|
  {
    ms[version - 1].name
  }

  function NamesAfter(ms: seq<Migration>, k: nat): map<int, string> {
    map i | k < i <= |ms| :: NameOf(ms, i)
  }

  /** The version table once exactly these are recorded. */
  function Names(ms: seq<Migration>): map<int, string> { NamesAfter(ms, 0) }

  /** The schema after these migrations' queries, in order. */
  function Fold<S>(exec: Exec<S>, start: S, ms: seq<Migration>): Option<S> {
    if |ms| == 0 then Some(start)
    else
      var before := Fold(exec, start, ms[..|ms| - 1]);
      if before.None? then None else exec(before.value, ms[|ms| - 1].query)
  }

  /** Exactly these migrations are recorded, and exactly their queries made the schema. */
  ghost predicate Applied<S>(exec: Exec<S>, start: S, db: Db<S>, ms: seq<Migration>) {
    Sequential(ms) && db.recorded == Names(ms) && Fold(exec, start, ms) == Some(db.schema)
  }

  lemma {:induction false} RowsFrom(ms: seq<Migration>, k: nat)
    requires k <= |ms|
    ensures |Rows(NamesAfter(ms, k))| == |ms| - k
    ensures forall i | k <= i < |ms| :: Rows(NamesAfter(ms, k))[i - k] == (i + 1, ms[i].name)
    decreases |ms| - k
  {
    var m := NamesAfter(ms, k);
    if k < |ms| {
      assert k + 1 in m;
      assert MinKey(m) == k + 1;
      assert m - {k + 1} == NamesAfter(ms, k + 1);
      RowsFrom(ms, k + 1);
      forall i | k <= i < |ms| ensures Rows(m)[i - k] == (i + 1, ms[i].name) {
        if i > k { assert Rows(m)[i - k] == Rows(NamesAfter(ms, k + 1))[i - (k + 1)]; }
      }
    } else {
      assert m == map[];
    }
  }

  lemma RowsOfNames(ms: seq<Migration>)
    ensures |Rows(Names(ms))| == |ms|
    ensures forall i | 0 <= i < |ms| :: Rows(Names(ms))[i] == (i + 1, ms[i].name)
  {
    hide Rows;
    RowsFrom(ms, 0);
    forall i | 0 <= i < |ms| ensures Rows(Names(ms))[i] == (i + 1, ms[i].name) {
      assert Rows(NamesAfter(ms, 0))[i - 0] == (i + 1, ms[i].name);
    }
  }

  /** One transaction adds the next migration and its query, or nothing. */
  lemma ApplyOneExtends<S>(exec: Exec<S>, start: S, db: Db<S>, all: seq<Migration>, k: nat, fault: TxFault)
    requires Sequential(all) && k < |all| && Applied(exec, start, db, all[..k])
    ensures var (next, ok) := ApplyOne(exec, db, all[k], fault);
      var durable := fault == AtCommit(true) && Fold(exec, start, all[..k + 1]).Some?;
      Applied(exec, start, next, if ok || durable then all[..k + 1] else all[..k])
    ensures ApplyOne(exec, db, all[k], fault).1 <==> fault.NoFault? && Fold(exec, start, all[..k + 1]).Some?
    ensures ApplyOne(exec, db, all[k], fault).0.hasTable == db.hasTable
  {
    var more := all[..k + 1];
    assert more[..k] == all[..k] && more[k] == all[k];
    assert all[k].version == k + 1 && k + 1 !in db.recorded;
    assert Names(more) == Names(all[..k])[k + 1 := all[k].name];
  }

  lemma AppliedFolds<S>(exec: Exec<S>, start: S, db: Db<S>, ms: seq<Migration>)
    requires Applied(exec, start, db, ms)
    ensures Fold(exec, start, ms).Some?
  {
  }

  lemma {:induction false} ApplyAllExtends<S>(exec: Exec<S>, start: S, db: Db<S>, all: seq<Migration>, k: nat,
                                              faults: int -> TxFault)
    requires Sequential(all) && k <= |all| && Applied(exec, start, db, all[..k])
    ensures var (next, ok) := ApplyAll(exec, db, all[k..], faults);
      && (exists j :: k <= j <= |all| && Applied(exec, start, next, all[..j]))
      && (ok ==> Applied(exec, start, next, all))
      && next.hasTable == db.hasTable
    ensures ApplyAll(exec, db, all[k..], faults).1
      <==> Fold(exec, start, all).Some? && forall v | k < v <= |all| :: faults(v).NoFault?
    decreases |all| - k
  {
    hide Applied, ApplyOne;
    if k == |all| {
      assert all[..k] == all && all[k..] == [];
      AppliedFolds(exec, start, db, all);
    } else {
      assert all[k].version == k + 1;
      ApplyOneExtends(exec, start, db, all, k, faults(k + 1));
      var (next, ok) := ApplyOne(exec, db, all[k], faults(k + 1));
      assert all[k..][0] == all[k] && all[k..][1..] == all[k + 1..];
      if ok { ApplyAllExtends(exec, start, next, all, k + 1, faults); }
      if Fold(exec, start, all).Some? { FoldPrefix(exec, start, all, k + 1); }
    }
  }

  /** Migrations k to j - 1 met no fault and their queries execute. */
  predicate Through<S>(exec: Exec<S>, start: S, all: seq<Migration>, k: nat, j: nat, faults: int -> TxFault)
    requires j <= |all|
  {
    Fold(exec, start, all[..j]).Some? && forall v | k < v <= j :: faults(v).NoFault?
  }

  /** Applying stopped at migration j: all before it are in, and it is only if its failed commit was durable. */
  ghost predicate StopsAt<S>(exec: Exec<S>, start: S, db: Db<S>, all: seq<Migration>, k: nat, j: nat,
                             faults: int -> TxFault)
    requires j < |all|
  {
    && Through(exec, start, all, k, j, faults) && !Through(exec, start, all, k, j + 1, faults)
    && var durable := faults(j + 1) == AtCommit(true) && Fold(exec, start, all[..j + 1]).Some?;
    Applied(exec, start, db, if durable then all[..j + 1] else all[..j])
  }

  lemma {:induction false} ApplyAllStops<S>(exec: Exec<S>, start: S, db: Db<S>, all: seq<Migration>, k: nat,
                                            faults: int -> TxFault) returns (j: nat)
    requires Sequential(all) && k <= |all| && Applied(exec, start, db, all[..k])
    requires !ApplyAll(exec, db, all[k..], faults).1
    ensures k <= j < |all| && StopsAt(exec, start, ApplyAll(exec, db, all[k..], faults).0, all, k, j, faults)
    decreases |all| - k
  {
    hide Applied, ApplyOne;
    assert all[k].version == k + 1;
    ApplyOneExtends(exec, start, db, all, k, faults(k + 1));
    var (next, ok) := ApplyOne(exec, db, all[k], faults(k + 1));
    assert all[k..][0] == all[k] && all[k..][1..] == all[k + 1..];
    if ok {
      j := ApplyAllStops(exec, start, next, all, k + 1, faults);
    } else {
      j := k;
      AppliedFolds(exec, start, db, all[..k]);
    }
  }

  lemma {:induction false} FoldPrefix<S>(exec: Exec<S>, start: S, ms: seq<Migration>, k: nat)
    requires k <= |ms| && Fold(exec, start, ms).Some?
    ensures Fold(exec, start, ms[..k]).Some?
    decreases |ms|
  {
    if k < |ms| {
      FoldPrefix(exec, start, ms[..|ms| - 1], k);
      assert ms[..|ms| - 1][..k] == ms[..k];
    } else {
      assert ms[..k] == ms;
    }
  }

  /**
   One run of a build over a database that holds a prefix of the longest list: it still does, and
   if the run succeeds it holds exactly the build.
   */
  lemma RunKeepsPrefix<S>(exec: Exec<S>, start: S, db: Db<S>, longest: seq<Migration>, k: nat, run: Run)
    requires Sequential(longest) && k <= |longest| && Applied(exec, start, db, longest[..k])
    requires run.build.Some? ==> run.build.value <= longest
    ensures var (next, ok) := Migrate(exec, db, run);
      && (exists j :: k <= j <= |longest| && Applied(exec, start, next, longest[..j]))
      && (ok ==> run.build.Some? && next.hasTable && Applied(exec, start, next, run.build.value))
  {
    hide Fold, ApplyAll, Rows;
    if run.build.Some? {
      var build, created := run.build.value, db.(hasTable := true);
      RowsOfNames(longest[..k]);
      if k <= |build| {
        assert build[..k] == longest[..k];
        ApplyAllExtends(exec, start, created, build, k, run.faults);
        var (next, ok) := ApplyAll(exec, created, build[k..], run.faults);
        var j :| k <= j <= |build| && Applied(exec, start, next, build[..j]);
        assert build[..j] == longest[..j];
      }
      assert Applied(exec, start, created, longest[..k]);
    }
  }

  ghost function MigrateAll<S>(exec: Exec<S>, db: Db<S>, runs: seq<Run>): Db<S> {
    if |runs| == 0 then db
    else Migrate(exec, MigrateAll(exec, db, runs[..|runs| - 1]), runs[|runs| - 1]).0
  }

  /** Over any starts of builds that extend one another, with any faults, the database holds a prefix. */
  lemma {:induction false} AlwaysPrefix<S>(exec: Exec<S>, start: S, longest: seq<Migration>, runs: seq<Run>)
    requires Sequential(longest) && forall r | r in runs && r.build.Some? :: r.build.value <= longest
    ensures exists k ::
      0 <= k <= |longest| && Applied(exec, start, MigrateAll(exec, Db(false, map[], start), runs), longest[..k])
  {
    hide Migrate;
    var empty := Db(false, map[], start);
    if |runs| == 0 {
      assert longest[..0] == [];
      assert Names(longest[..0]) == map[];
      assert Applied(exec, start, empty, longest[..0]);
    } else {
      var p := runs[..|runs| - 1];
      assert runs[|runs| - 1] in runs && forall r | r in p :: r in runs;
      AlwaysPrefix(exec, start, longest, p);
      var k :| 0 <= k <= |longest| && Applied(exec, start, MigrateAll(exec, empty, p), longest[..k]);
      RunKeepsPrefix(exec, start, MigrateAll(exec, empty, p), longest, k, runs[|runs| - 1]);
    }
  }

  /** A successful start leaves the database exactly as a fault-free fresh install of the same build. */
  lemma SuccessIsFreshInstall<S>(exec: Exec<S>, start: S, longest: seq<Migration>, runs: seq<Run>, last: Run)
    requires Sequential(longest) && forall r | r in runs && r.build.Some? :: r.build.value <= longest
    requires last.build.Some? && last.build.value <= longest
    requires Migrate(exec, MigrateAll(exec, Db(false, map[], start), runs), last).1
    ensures Migrate(exec, MigrateAll(exec, Db(false, map[], start), runs), last).0
      == Migrate(exec, Db(false, map[], start), Run(last.build, false, false, _ => NoFault)).0
    ensures Migrate(exec, Db(false, map[], start), Run(last.build, false, false, _ => NoFault)).1
  {
    var empty, build := Db(false, map[], start), last.build.value;
    AlwaysPrefix(exec, start, longest, runs);
    var before := MigrateAll(exec, empty, runs);
    var k :| 0 <= k <= |longest| && Applied(exec, start, before, longest[..k]);
    RunKeepsPrefix(exec, start, before, longest, k, last);
    FreshInstall(exec, start, build);
  }

  lemma FreshInstall<S>(exec: Exec<S>, start: S, build: seq<Migration>)
    requires Sequential(build) && Fold(exec, start, build).Some?
    ensures Migrate(exec, Db(false, map[], start), Run(Some(build), false, false, _ => NoFault))
      == (Db(true, Names(build), Fold(exec, start, build).value), true)
  {
    var created := Db(true, map[], start);
    assert build[..0] == [] && Names(build[..0]) == map[] && build[0..] == build;
    assert Rows(created.recorded) == [];
    assert Applied(exec, start, created, build[..0]);
    ApplyAllExtends(exec, start, created, build, 0, _ => NoFault);
  }

  // ---------- edited files ----------

  /** An engine whose schema remembers every query run on it, so it tells any two histories apart. */
  ghost predicate Tracing(exec: Exec<seq<string>>) {
    forall s, q :: exec(s, q) == Some(s + [q])
  }

  function Queries(ms: seq<Migration>): seq<string> {
    seq(|ms|, i requires 0 <= i < |ms| => ms[i].query)
  }

  lemma {:induction false} TraceFold(exec: Exec<seq<string>>, ms: seq<Migration>)
    requires Tracing(exec)
    ensures Fold(exec, [], ms) == Some(Queries(ms))
  {
    if |ms| == 0 {
      assert Queries(ms) == [];
    } else {
      TraceFold(exec, ms[..|ms| - 1]);
      assert Queries(ms) == Queries(ms[..|ms| - 1]) + [ms[|ms| - 1].query];
    }
  }

  lemma MixedNames(done: seq<Migration>, build: seq<Migration>)
    requires |done| <= |build| && Sequential(done) && Sequential(build)
    requires forall i | 0 <= i < |done| :: done[i].name == build[i].name
    ensures Sequential(done + build[|done|..]) && Names(done + build[|done|..]) == Names(build)
  {
    var mixed := done + build[|done|..];
    assert forall i | 1 <= i <= |build| :: NameOf(mixed, i) == NameOf(build, i);
  }

  lemma MixedQueries(done: seq<Migration>, build: seq<Migration>)
    requires |done| <= |build|
    ensures Queries(done + build[|done|..]) == Queries(done) + Queries(build[|done|..])
    ensures
      Queries(done + build[|done|..]) == Queries(build)
      <==> forall i | 0 <= i < |done| :: done[i].query == build[i].query
  {
    var mixed := done + build[|done|..];
    assert forall i | 0 <= i < |build| :: Queries(mixed)[i] == mixed[i].query && Queries(build)[i] == build[i].query;
    if Queries(mixed) == Queries(build) {
      forall i | 0 <= i < |done| ensures done[i].query == build[i].query {
        assert Queries(mixed)[i] == Queries(build)[i];
      }
    }
  }

  /**
   Only names are recorded, so a build whose applied files were edited is accepted all the same,
   and its result is a fresh install's exactly when the applied queries are unchanged.
   */
  lemma EditedFileDrifts(exec: Exec<seq<string>>, done: seq<Migration>, build: seq<Migration>, db: Db<seq<string>>)
    requires Tracing(exec) && Applied(exec, [], db, done) && Sequential(build) && |done| <= |build|
    requires forall i | 0 <= i < |done| :: done[i].name == build[i].name
    ensures var (next, ok) := Migrate(exec, db, Run(Some(build), false, false, _ => NoFault));
      && ok && next.recorded == Names(build)
      && next.schema == Queries(done) + Queries(build[|done|..])
      && (next.schema == Queries(build) <==> forall i | 0 <= i < |done| :: done[i].query == build[i].query)
  {
    hide Fold, Rows, Queries, ApplyAll, Names;
    var created, k := db.(hasTable := true), |done|;
    var mixed := done + build[k..];
    MixedNames(done, build);
    MixedQueries(done, build);
    RowsOfNames(done);
    TraceFold(exec, mixed);
    assert mixed[..k] == done && mixed[k..] == build[k..];
    assert Applied(exec, [], created, mixed[..k]);
    ApplyAllExtends(exec, [], created, mixed, k, _ => NoFault);
    assert Compatible(build, Rows(created.recorded));
  }

  // ---------- which builds a database accepts ----------

  /** The build starts with the recorded names. */
  predicate Continues(build: seq<Migration>, done: seq<Migration>) {
    |done| <= |build| && forall i | 0 <= i < |done| :: done[i].name == build[i].name
  }

  /** Exactly when a run succeeds, on a database that any migrations made. */
  lemma MigrateExactly<S>(exec: Exec<S>, start: S, db: Db<S>, done: seq<Migration>, build: seq<Migration>, run: Run)
    requires Applied(exec, start, db, done) && Sequential(build) && run.build == Some(build)
    ensures Migrate(exec, db, run).1
      <==>
        && !run.tableFails && !run.readFails && Continues(build, done)
        && (forall v | |done| < v <= |build| :: run.faults(v).NoFault?)
        && Fold(exec, start, done + build[|done|..]).Some?
    ensures Migrate(exec, db, run).1 ==> Applied(exec, start, Migrate(exec, db, run).0, done + build[|done|..])
  {
    hide Fold, Rows, ApplyAll, Names;
    RowsOfNames(done);
    CompatibleExactly(build, done, Rows(db.recorded));
    hide Compatible;
    if Continues(build, done) {
      var created, k := db.(hasTable := true), |done|;
      var mixed := done + build[k..];
      MixedNames(done, build);
      assert mixed[..k] == done && mixed[k..] == build[k..];
      assert Applied(exec, start, created, mixed[..k]);
      ApplyAllExtends(exec, start, created, mixed, k, run.faults);
    }
  }

  /** What a failed run leaves, in each case. */
  lemma FailedRunExactly<S>(exec: Exec<S>, start: S, db: Db<S>, done: seq<Migration>, run: Run)
    requires Applied(exec, start, db, done) && (run.build.Some? ==> Sequential(run.build.value))
    requires !Migrate(exec, db, run).1
    ensures
      var after := Migrate(exec, db, run).0;
      if run.build.None? || run.tableFails then after == db
      else if run.readFails || !Continues(run.build.value, done) then after == Db(true, db.recorded, db.schema)
      else
        exists j :: |done| <= j < |run.build.value|
          && StopsAt(exec, start, after, done + run.build.value[|done|..], |done|, j, run.faults)
  {
    hide Fold, Rows, ApplyAll, Names, StopsAt;
    RowsOfNames(done);
    if run.build.Some? {
      var build, k := run.build.value, |done|;
      CompatibleExactly(build, done, Rows(db.recorded));
      hide Compatible;
      if !run.tableFails && !run.readFails && Continues(build, done) {
        var created := db.(hasTable := true);
        var mixed := done + build[k..];
        MixedNames(done, build);
        assert mixed[..k] == done && mixed[k..] == build[k..];
        assert Applied(exec, start, created, mixed[..k]);
        var j := ApplyAllStops(exec, start, created, mixed, k, run.faults);
      }
    }
  }

  lemma CompatibleExactly(build: seq<Migration>, done: seq<Migration>, applied: seq<(int, string)>)
    requires Sequential(build) && |applied| == |done|
    requires forall i | 0 <= i < |done| :: applied[i] == (i + 1, done[i].name)
    ensures Compatible(build, applied) <==> Continues(build, done)
  {
    if Continues(build, done) {
      forall i | 0 <= i < |applied| ensures applied[i] == (build[i].version, build[i].name) {
        assert build[i].version == i + 1;
      }
    }
    if Compatible(build, applied) {
      forall i | 0 <= i < |done| ensures done[i].name == build[i].name {
        assert applied[i] == (i + 1, done[i].name);
      }
    }
  }

  /** A shorter build, or one that names an applied migration differently, only makes the version table. */
  lemma OtherBuildRefused<S>(exec: Exec<S>, start: S, db: Db<S>, done: seq<Migration>, build: seq<Migration>, run: Run)
    requires Applied(exec, start, db, done) && Sequential(build) && run.build == Some(build) && !Continues(build, done)
    ensures Migrate(exec, db, run)
      == (Db(db.hasTable || !run.tableFails, db.recorded, db.schema), false)
  {
    hide Fold, Rows, ApplyAll, Names;
    RowsOfNames(done);
    CompatibleExactly(build, done, Rows(db.recorded));
    hide Compatible;
  }

  // ---------- the database ----------

  class Database<S> {
    const exec: Exec<S>
    var hasTable: bool
    var recorded: map<int, string>
    var schema: S

    ghost function Contents(): Db<S>
      reads this
    {
      Db(hasTable, recorded, schema)
    }

    constructor (exec: Exec<S>, schema: S)
      ensures this.exec == exec && Contents() == Db(false, map[], schema)
    {
      this.exec := exec;
      this.schema := schema;
      this.hasTable := false;
      this.recorded := map[];
    }

    /** Query and record in one transaction; any error rolls both back. */
    method ApplyMigration(candidate: Migration, fault: TxFault) returns (ok: bool)
      modifies this
      ensures (Contents(), ok) == ApplyOne(exec, old(Contents()), candidate, fault)
    {
      if fault.AtBegin? { return false; }
      var schemaBefore, recordedBefore := schema, recorded;
      var next := exec(schema, candidate.query);
      if fault.AtExecute? || next.None? { return false; }
      schema := next.value;
      if fault.AtRecord? || candidate.version in recorded {
        schema := schemaBefore;
        return false;
      }
      recorded := recorded[candidate.version := candidate.name];
      if fault.AtCommit? {
        if !fault.durable { schema, recorded := schemaBefore, recordedBefore; }
        return false;
      }
      ok := true;
    }

    method ApplyPending(pending: seq<Migration>, faults: int -> TxFault) returns (ok: bool)
      modifies this
      ensures (Contents(), ok) == ApplyAll(exec, old(Contents()), pending, faults)
    {
      hide ApplyOne;
      var i := 0;
      assert pending[0..] == pending;
      while i < |pending|
        invariant 0 <= i <= |pending|
        invariant ApplyAll(exec, Contents(), pending[i..], faults) == ApplyAll(exec, old(Contents()), pending, faults)
      {
        assert pending[i..][0] == pending[i] && pending[i..][1..] == pending[i + 1..];
        var applied := ApplyMigration(pending[i], faults(pending[i].version));
        if !applied { return false; }
        i := i + 1;
      }
      ok := true;
    }

    /** applied is what the ordered SELECT returns. */
    method MigrateTo(run: Run, applied: seq<(int, string)>) returns (ok: bool)
      requires applied == Rows(recorded)
      modifies this
      ensures (Contents(), ok) == Migrate(exec, old(Contents()), run)
    {
      if run.build.None? || run.tableFails { return false; }
      hasTable := true;
      if run.readFails || !Compatible(run.build.value, applied) { return false; }
      ok := ApplyPending(run.build.value[|applied|..], run.faults);
    }
  }
}
