/** Redacting sensitive values in an already parsed JSON tree. */
module Redaction {
  import opened Wrappers

  datatype Json =
    | Null
    | Bool(value: bool)
    | Number(digits: string)
    | Str(text: string)
    | List(items: seq<Json>)
    | Object(fields: map<string, Json>)

  const MARKER: string := "[REDACTED]"

  /** strings.ToLower, which lower-cases every Unicode letter, is a library call here. */
  type Lower = string -> string

  /** strings.ReplaceAll(s, "-", "_") */
  function Underscored(s: string): (r: string)
    ensures |r| == |s| && forall i | 0 <= i < |s| :: r[i] == if s[i] == '-' then '_' else s[i]
  {
    seq(|s|, i requires 0 <= i < |s| => if s[i] == '-' then '_' else s[i])
  }

  predicate Contains(s: string, part: string) { exists i :: 0 <= i <= |s| && part <= s[i..] }

  predicate EndsWith(s: string, part: string) { |part| <= |s| && s[|s| - |part|..] == part }

  predicate IsSensitiveKey(lower: Lower, key: string) {
    var k := lower(Underscored(key));
    || Contains(k, "password") || Contains(k, "passwd") || Contains(k, "pwd") || Contains(k, "secret")
    || Contains(k, "token") || Contains(k, "credential") || Contains(k, "authorization") || Contains(k, "cookie")
    || k == "auth" || k == "key" || "auth_" <= k || EndsWith(k, "_auth") || EndsWith(k, "_key")
  }

  /** The substrings that make a key sensitive wherever they stand. */
  const MARKERS: set<string> :=
    {"password", "passwd", "pwd", "secret", "token", "credential", "authorization", "cookie"}

  /** The normal form has a marker in it. */
  ghost predicate Marked(form: string) {
    exists x, marker, y :: marker in MARKERS && form == x + marker + y
  }

  lemma ContainsExactly(s: string, part: string)
    ensures Contains(s, part) <==> exists x, y :: s == x + part + y
  {
    if Contains(s, part) {
      var i :| 0 <= i <= |s| && part <= s[i..];
      assert s == s[..i] + part + s[i + |part|..];
    }
    forall x, y | s == x + part + y ensures Contains(s, part) {
      assert s[|x|..] == part + y;
    }
  }

  /**
   Exactly which keys are sensitive: those whose lower-cased form, with underscores for hyphens, has
   one of the eight markers in it, is "auth" or "key", starts with "auth_", or ends with "_auth" or "_key".
   */
  lemma SensitiveExactly(lower: Lower, key: string)
    ensures
      var form := lower(Underscored(key));
      IsSensitiveKey(lower, key)
      <==>
        || Marked(form) || form == "auth" || form == "key" || (exists rest :: form == "auth_" + rest)
        || (exists rest :: form == rest + "_auth") || (exists rest :: form == rest + "_key")
  {
    var form := lower(Underscored(key));
    forall marker | marker in MARKERS ensures Contains(form, marker) <==> exists x, y :: form == x + marker + y {
      ContainsExactly(form, marker);
    }
    EdgesExactly(form);
    MarkedExactly(form);
    hide Contains, Marked, EndsWith;
  }

  lemma MarkedExactly(form: string)
    requires forall marker | marker in MARKERS :: Contains(form, marker) <==> exists x, y :: form == x + marker + y
    ensures Marked(form) <==>
      || Contains(form, "password") || Contains(form, "passwd") || Contains(form, "pwd") || Contains(form, "secret")
      || Contains(form, "token") || Contains(form, "credential") || Contains(form, "authorization")
      || Contains(form, "cookie")
  {
    hide Contains;
    assert Marked(form) <==> exists marker :: marker in MARKERS && Contains(form, marker);
  }

  lemma EdgesExactly(form: string)
    ensures "auth_" <= form <==> exists rest :: form == "auth_" + rest
    ensures EndsWith(form, "_auth") <==> exists rest :: form == rest + "_auth"
    ensures EndsWith(form, "_key") <==> exists rest :: form == rest + "_key"
  {
    if "auth_" <= form { assert form == "auth_" + form[5..]; }
    if EndsWith(form, "_auth") { assert form == form[..|form| - 5] + "_auth"; }
    if EndsWith(form, "_key") { assert form == form[..|form| - 4] + "_key"; }
  }

  /** redactJSONValue */
  function Redact(lower: Lower, v: Json): Json {
    match v
    case List(items) => List(seq(|items|, i requires 0 <= i < |items| => Redact(lower, items[i])))
    case Object(fields) =>
      Object(map k | k in fields :: if IsSensitiveKey(lower, k) then Str(MARKER) else Redact(lower, fields[k]))
    case _ => v
  }

  // ---------- paths ----------

  datatype Step = Key(key: string) | Index(index: nat)

  /** The value at a path, if the path leads anywhere. */
  function At(v: Json, path: seq<Step>): Option<Json> {
    if |path| == 0 then Some(v)
    else
      match path[0]
      case Key(k) => if v.Object? && k in v.fields then At(v.fields[k], path[1..]) else None
      case Index(i) => if v.List? && i < |v.items| then At(v.items[i], path[1..]) else None
  }

  /** No step of the path goes under a sensitive key. */
  predicate Open(lower: Lower, path: seq<Step>) {
    forall i | 0 <= i < |path| && path[i].Key? :: !IsSensitiveKey(lower, path[i].key)
  }

  function RedactFound(lower: Lower, v: Option<Json>): Option<Json> {
    if v.Some? then Some(Redact(lower, v.value)) else None
  }

  /** Along a path that passes no sensitive key nothing moves, appears or disappears. */
  lemma {:induction false} OpenPathsKept(lower: Lower, v: Json, path: seq<Step>)
    requires Open(lower, path)
    ensures At(Redact(lower, v), path) == RedactFound(lower, At(v, path))
    decreases |path|
  {
    hide IsSensitiveKey;
    if |path| > 0 {
      assert forall i | 0 <= i < |path| - 1 :: path[1..][i] == path[i + 1];
      match path[0] {
        case Key(k) => if v.Object? && k in v.fields { OpenPathsKept(lower, v.fields[k], path[1..]); }
        case Index(i) => if v.List? && i < |v.items| { OpenPathsKept(lower, v.items[i], path[1..]); }
      }
    }
  }

  /** In particular every scalar on such a path is kept as it was, and nothing else reads as it. */
  lemma OpenScalarsKept(lower: Lower, v: Json, path: seq<Step>, leaf: Json)
    requires Open(lower, path) && !leaf.List? && !leaf.Object?
    ensures At(v, path) == Some(leaf) <==> At(Redact(lower, v), path) == Some(leaf)
  {
    OpenPathsKept(lower, v, path);
    if At(v, path).Some? {
      assert Redact(lower, leaf) == leaf;
    }
  }

  lemma {:induction false} AtSplit(v: Json, p: seq<Step>, q: seq<Step>)
    ensures At(v, p + q) == if At(v, p).Some? then At(At(v, p).value, q) else None
    decreases |p|
  {
    if |p| == 0 {
      assert p + q == q;
    } else {
      assert (p + q)[1..] == p[1..] + q;
      match p[0] {
        case Key(k) => if v.Object? && k in v.fields { AtSplit(v.fields[k], p[1..], q); }
        case Index(i) => if v.List? && i < |v.items| { AtSplit(v.items[i], p[1..], q); }
      }
    }
  }

  /** Under a sensitive key, at any depth, there is the marker if there was anything, and nothing below it. */
  lemma SensitiveMasked(lower: Lower, v: Json, p: seq<Step>, k: string, q: seq<Step>)
    requires Open(lower, p) && IsSensitiveKey(lower, k)
    ensures At(Redact(lower, v), p + [Key(k)]) == if At(v, p + [Key(k)]).Some? then Some(Str(MARKER)) else None
    ensures q != [] ==> At(Redact(lower, v), p + [Key(k)] + q) == None
  {
    hide IsSensitiveKey;
    OpenPathsKept(lower, v, p);
    AtSplit(v, p, [Key(k)]);
    AtSplit(Redact(lower, v), p, [Key(k)]);
    AtSplit(Redact(lower, v), p + [Key(k)], q);
    assert [Key(k)][1..] == [];
  }

  /** Redacting twice is redacting once. */
  lemma {:induction false} RedactIdempotent(lower: Lower, v: Json)
    ensures Redact(lower, Redact(lower, v)) == Redact(lower, v)
  {
    hide IsSensitiveKey;
    match v {
      case List(items) =>
        forall i | 0 <= i < |items| ensures Redact(lower, Redact(lower, items[i])) == Redact(lower, items[i]) {
          RedactIdempotent(lower, items[i]);
        }
        assert Redact(lower, Redact(lower, v)).items == Redact(lower, v).items;
      case Object(fields) =>
        forall k | k in fields ensures Redact(lower, Redact(lower, fields[k])) == Redact(lower, fields[k]) {
          RedactIdempotent(lower, fields[k]);
        }
        assert Redact(lower, Redact(lower, v)).fields == Redact(lower, v).fields;
      case _ =>
    }
  }

  /** The recursion as the program writes it: fresh maps and slices filled in loops. */
  method RedactValue(lower: Lower, v: Json) returns (r: Json)
    ensures r == Redact(lower, v)
  {
    hide IsSensitiveKey;
    match v {
      case Object(fields) =>
        var redacted: map<string, Json> := map[];
        var keys := fields.Keys;
        while keys != {}
          invariant keys <= fields.Keys && redacted.Keys == fields.Keys - keys
          invariant forall k | k in redacted ::
            redacted[k] == if IsSensitiveKey(lower, k) then Str(MARKER) else Redact(lower, fields[k])
          decreases |keys|
        {
          var key :| key in keys;
          if IsSensitiveKey(lower, key) {
            redacted := redacted[key := Str(MARKER)];
          } else {
            var child := RedactValue(lower, fields[key]);
            redacted := redacted[key := child];
          }
          keys := keys - {key};
        }
        r := Object(redacted);
        assert redacted == Redact(lower, v).fields;
      case List(items) =>
        var redacted: seq<Json> := [];
        for index := 0 to |items|
          invariant |redacted| == index
          invariant forall i | 0 <= i < index :: redacted[i] == Redact(lower, items[i])
        {
          var child := RedactValue(lower, items[index]);
          redacted := redacted + [child];
        }
        r := List(redacted);
        assert redacted == Redact(lower, v).items;
      case _ =>
        r := v;
    }
  }

  /** So a field whose key's form has a marker in it is masked, whatever else the key says and the value is. */
  lemma MarkedKeysMasked(lower: Lower, fields: map<string, Json>, key: string, x: string, marker: string, y: string)
    requires key in fields && marker in MARKERS && lower(Underscored(key)) == x + marker + y
    ensures Redact(lower, Object(fields)).fields.Keys == fields.Keys
    ensures Redact(lower, Object(fields)).fields[key] == Str("[REDACTED]")
  {
    SensitiveExactly(lower, key);
    hide IsSensitiveKey;
    assert Marked(lower(Underscored(key)));
  }
}
