/**
 Password hash strings: dollar-separated fields carrying fixed Argon2id parameters and two
 unpadded base64 values (section 4 of RFC 4648). The key derivation is any function to 32 bytes.
 */
module PasswordHash {
  import opened Wrappers
  import opened Base64
  import Text

  const MEMORY: nat := 19456
  const ITERATIONS: nat := 2
  const PARALLELISM: nat := 1
  const SALT_BYTES: nat := 16
  const OUTPUT_BYTES: nat := 32
  const MINIMUM: nat := 12
  const MAXIMUM: nat := 1024

  datatype Parameters = Parameters(memory: nat, iterations: nat, parallelism: nat)

  datatype Decoded = Decoded(parameters: Parameters, salt: seq<byte>, hash: seq<byte>)

  /** argon2.IDKey: password, salt, parameters and output length to a key. */
  type Kdf = (string, seq<byte>, Parameters, nat) -> seq<byte>

  function Configured(): Parameters { Parameters(MEMORY, ITERATIONS, PARALLELISM) }

  function ParameterText(p: Parameters): string {
    "m=" + Text.Decimal(p.memory) + ",t=" + Text.Decimal(p.iterations) + ",p=" + Text.Decimal(p.parallelism)
  }

  /** encodePasswordHash */
  function EncodeHash(salt: seq<byte>, hash: seq<byte>): string {
    "$argon2id$v=19$" + ParameterText(Configured()) + "$" + Encode(Std, salt) + "$" + Encode(Std, hash)
  }

  /** strings.TrimPrefix */
  function TrimPrefix(s: string, prefix: string): string {
    if prefix <= s then s[|prefix|..] else s
  }

  /** parseParameters: three numerals, each with or without its label. */
  function ParseParameters(value: string): Option<Parameters> {
    var parts := Text.Split(value, ',');
    if |parts| != 3 then None
    else
      var m := Text.ParseUint(TrimPrefix(parts[0], "m="), 0x1_0000_0000);
      var t := Text.ParseUint(TrimPrefix(parts[1], "t="), 0x1_0000_0000);
      var p := Text.ParseUint(TrimPrefix(parts[2], "p="), 0x100);
      if m.None? || t.None? || p.None? then None
      else Some(Parameters(m.value, t.value, p.value))
  }

  /** decodePasswordHash: what precedes the first dollar sign is not looked at. */
  function DecodeHash(encoded: string): Option<Decoded> {
    var parts := Text.Split(encoded, '$');
    if |parts| != 6 || parts[1] != "argon2id" || parts[2] != "v=19" then None
    else
      var parameters := ParseParameters(parts[3]);
      if parameters != Some(Configured()) then None
      else
        var salt := Decode(Std, parts[4]);
        if salt.None? || |salt.value| != SALT_BYTES then None
        else
          var hash := Decode(Std, parts[5]);
          if hash.None? || |hash.value| != OUTPUT_BYTES then None
          else Some(Decoded(parameters.value, salt.value, hash.value))
  }

  predicate Valid(password: string) { MINIMUM <= |password| <= MAXIMUM }

  /** HashPassword, given its random salt. */
  function HashPassword(kdf: Kdf, password: string, salt: seq<byte>): Option<string> {
    if !Valid(password) then None
    else Some(EncodeHash(salt, kdf(password, salt, Configured(), OUTPUT_BYTES)))
  }

  predicate VerifyPassword(kdf: Kdf, encoded: string, password: string) {
    if |password| > MAXIMUM then false
    else
      var d := DecodeHash(encoded);
      d.Some? && kdf(password, d.value.salt, d.value.parameters, |d.value.hash|) == d.value.hash
  }

  lemma {:induction false} DecimalAvoids(n: nat, c: char)
    requires !Text.IsDigit(c)
    ensures c !in Text.Decimal(n)
  {
  }

  lemma TrimLabel(prefix: string, s: string)
    ensures TrimPrefix(prefix + s, prefix) == s
  {
  }

  lemma NumeralRoundTrip(prefix: string, n: nat, limit: nat)
    requires n < limit
    ensures Text.ParseUint(TrimPrefix(prefix + Text.Decimal(n), prefix), limit) == Some(n)
  {
    TrimLabel(prefix, Text.Decimal(n));
    Text.DecimalValue(n);
  }

  /** Printed parameters that fit their widths parse back. */
  lemma ParametersRoundTrip(p: Parameters)
    requires p.memory < 0x1_0000_0000 && p.iterations < 0x1_0000_0000 && p.parallelism < 0x100
    ensures ParseParameters(ParameterText(p)) == Some(p)
    ensures '$' !in ParameterText(p)
  {
    hide Text.Split, Text.Decimal, Text.ParseUint, TrimPrefix;
    var m, t, k := "m=" + Text.Decimal(p.memory), "t=" + Text.Decimal(p.iterations), "p=" + Text.Decimal(p.parallelism);
    DecimalAvoids(p.memory, ',');
    DecimalAvoids(p.iterations, ',');
    DecimalAvoids(p.parallelism, ',');
    DecimalAvoids(p.memory, '$');
    DecimalAvoids(p.iterations, '$');
    DecimalAvoids(p.parallelism, '$');
    Text.SplitHead(k, "", ',');
    Text.SplitHead(t, k, ',');
    Text.SplitHead(m, t + [','] + k, ',');
    assert ParameterText(p) == m + [','] + (t + [','] + k);
    NumeralRoundTrip("m=", p.memory, 0x1_0000_0000);
    NumeralRoundTrip("t=", p.iterations, 0x1_0000_0000);
    NumeralRoundTrip("p=", p.parallelism, 0x100);
  }

  /** The text of a hash string, from its six fields. */
  function Fields(front: string, parameters: string, salt: string, hash: string): string {
    front + "$argon2id$v=19$" + parameters + "$" + salt + "$" + hash
  }

  lemma SplitFields(front: string, parameters: string, salt: string, hash: string)
    requires '$' !in front && '$' !in parameters && '$' !in salt && '$' !in hash
    ensures
      Text.Split(Fields(front, parameters, salt, hash), '$') == [front, "argon2id", "v=19", parameters, salt, hash]
  {
    hide Text.Split;
    var s4 := salt + ['$'] + hash;
    var s3 := parameters + ['$'] + s4;
    var s2 := "v=19" + ['$'] + s3;
    var s1 := "argon2id" + ['$'] + s2;
    Text.SplitHead(hash, "", '$');
    Text.SplitHead(salt, hash, '$');
    Text.SplitHead(parameters, s4, '$');
    Text.SplitHead("v=19", s3, '$');
    Text.SplitHead("argon2id", s2, '$');
    Text.SplitHead(front, s1, '$');
    assert Fields(front, parameters, salt, hash) == front + ['$'] + s1;
  }

  lemma StdAvoidsDollar(b: seq<byte>)
    ensures '$' !in Encode(Std, b)
  {
    EncodeShape(Std, b);
  }

  /** Decoding undoes encoding for every salt and hash of the configured sizes. */
  lemma DecodeEncodeHash(salt: seq<byte>, hash: seq<byte>)
    requires |salt| == SALT_BYTES && |hash| == OUTPUT_BYTES
    ensures DecodeHash(EncodeHash(salt, hash)) == Some(Decoded(Configured(), salt, hash))
  {
    hide Text.Split, ParseParameters, ParameterText, Decode, Encode;
    var p, a, b := ParameterText(Configured()), Encode(Std, salt), Encode(Std, hash);
    ParametersRoundTrip(Configured());
    StdAvoidsDollar(salt);
    StdAvoidsDollar(hash);
    assert EncodeHash(salt, hash) == Fields("", p, a, b);
    SplitFields("", p, a, b);
    DecodeEncode(Std, salt);
    DecodeEncode(Std, hash);
  }

  /** A digit string of this value, with or without its label. */
  ghost predicate Numeral(s: string, prefix: string, n: nat) {
    exists digits :: Text.Spells(digits, n) && (s == digits || s == prefix + digits)
  }

  ghost predicate ConfiguredParts(p: string, m: string, t: string, k: string) {
    && p == m + "," + t + "," + k
    && Numeral(m, "m=", MEMORY) && Numeral(t, "t=", ITERATIONS) && Numeral(k, "p=", PARALLELISM)
  }

  /** The accepted spellings of the configured parameters. */
  ghost predicate ConfiguredText(p: string) {
    exists m, t, k :: ConfiguredParts(p, m, t, k)
  }

  lemma NumeralExactly(s: string, prefix: string, n: nat, limit: nat)
    requires n < limit && |prefix| > 0 && !Text.IsDigit(prefix[0])
    ensures Text.ParseUint(TrimPrefix(s, prefix), limit) == Some(n) <==> Numeral(s, prefix, n)
  {
    hide Text.Value;
    if Text.ParseUint(TrimPrefix(s, prefix), limit) == Some(n) {
      var digits := TrimPrefix(s, prefix);
      assert Text.Spells(digits, n) && (s == digits || s == prefix + digits);
    }
    if Numeral(s, prefix, n) {
      var digits :| Text.Spells(digits, n) && (s == digits || s == prefix + digits);
      if s == digits {
        assert !(prefix <= s) by { assert Text.IsDigit(s[0]); }
      } else {
        TrimLabel(prefix, digits);
      }
    }
  }

  lemma NumeralAvoids(s: string, prefix: string, n: nat, c: char)
    requires Numeral(s, prefix, n) && !Text.IsDigit(c) && c !in prefix
    ensures c !in s
  {
  }

  /** Exactly which parameter fields parse as the configured parameters. */
  lemma ConfiguredExactly(p: string)
    ensures ParseParameters(p) == Some(Configured()) <==> ConfiguredText(p)
  {
    hide Text.Split, Text.ParseUint, TrimPrefix, Numeral;
    var parts := Text.Split(p, ',');
    if ParseParameters(p) == Some(Configured()) {
      NumeralExactly(parts[0], "m=", MEMORY, 0x1_0000_0000);
      NumeralExactly(parts[1], "t=", ITERATIONS, 0x1_0000_0000);
      NumeralExactly(parts[2], "p=", PARALLELISM, 0x100);
      JoinThree(p, parts);
      assert ConfiguredParts(p, parts[0], parts[1], parts[2]);
    }
    forall m, t, k | ConfiguredParts(p, m, t, k) ensures ParseParameters(p) == Some(Configured()) {
      NumeralExactly(m, "m=", MEMORY, 0x1_0000_0000);
      NumeralExactly(t, "t=", ITERATIONS, 0x1_0000_0000);
      NumeralExactly(k, "p=", PARALLELISM, 0x100);
      NumeralAvoids(m, "m=", MEMORY, ',');
      NumeralAvoids(t, "t=", ITERATIONS, ',');
      NumeralAvoids(k, "p=", PARALLELISM, ',');
      SplitThree(m, t, k);
    }
  }

  lemma SplitThree(m: string, t: string, k: string)
    requires ',' !in m && ',' !in t && ',' !in k
    ensures Text.Split(m + "," + t + "," + k, ',') == [m, t, k]
  {
    hide Text.Split;
    Text.SplitHead(k, "", ',');
    Text.SplitHead(t, k, ',');
    Text.SplitHead(m, t + [','] + k, ',');
    assert m + "," + t + "," + k == m + [','] + (t + [','] + k);
  }

  lemma JoinThree(p: string, parts: seq<string>)
    requires parts == Text.Split(p, ',') && |parts| == 3
    ensures p == parts[0] + "," + parts[1] + "," + parts[2]
  {
    hide Text.Split, Text.Join;
    var again := parts[0] + "," + parts[1] + "," + parts[2];
    SplitThree(parts[0], parts[1], parts[2]);
    assert parts == [parts[0], parts[1], parts[2]];
    Text.JoinSplit(p, ',');
    Text.JoinSplit(again, ',');
  }

  /** A string in the accepted language: any front, the configured parameters, and base64 of the right sizes. */
  ghost predicate Accepted(encoded: string, salt: seq<byte>, hash: seq<byte>, front: string, p: string, a: string,
                           b: string) {
    && encoded == Fields(front, p, a, b)
    && '$' !in front && '$' !in p && '$' !in a && '$' !in b
    && ConfiguredText(p)
    && StripNewlines(a) == Encode(Std, salt) && |salt| == SALT_BYTES
    && StripNewlines(b) == Encode(Std, hash) && |hash| == OUTPUT_BYTES
  }

  lemma JoinFields(encoded: string)
    requires var parts := Text.Split(encoded, '$'); |parts| == 6 && parts[1] == "argon2id" && parts[2] == "v=19"
    ensures var parts := Text.Split(encoded, '$'); encoded == Fields(parts[0], parts[3], parts[4], parts[5])
  {
    var parts := Text.Split(encoded, '$');
    hide Text.Split, Text.Join, Fields;
    var again := Fields(parts[0], parts[3], parts[4], parts[5]);
    SplitFields(parts[0], parts[3], parts[4], parts[5]);
    assert parts == [parts[0], "argon2id", "v=19", parts[3], parts[4], parts[5]];
    Text.JoinSplit(encoded, '$');
    Text.JoinSplit(again, '$');
  }

  /** Exactly which strings decode, and to what: only the configured parameters are ever returned. */
  lemma DecodesExactlyAccepted(encoded: string, salt: seq<byte>, hash: seq<byte>)
    ensures DecodeHash(encoded) == Some(Decoded(Configured(), salt, hash))
      <==> exists front, p, a, b :: Accepted(encoded, salt, hash, front, p, a, b)
    ensures DecodeHash(encoded).Some? ==> DecodeHash(encoded).value.parameters == Configured()
  {
    hide ParseParameters, Decode, Encode, StripNewlines, Fields, ConfiguredText;
    var parts := Text.Split(encoded, '$');
    if DecodeHash(encoded) == Some(Decoded(Configured(), salt, hash)) {
      JoinFields(encoded);
      ConfiguredExactly(parts[3]);
      Base64.DecodesExactly(Std, parts[4], salt);
      Base64.DecodesExactly(Std, parts[5], hash);
      assert Accepted(encoded, salt, hash, parts[0], parts[3], parts[4], parts[5]);
    }
    forall front, p, a, b | Accepted(encoded, salt, hash, front, p, a, b)
      ensures DecodeHash(encoded) == Some(Decoded(Configured(), salt, hash))
    {
      SplitFields(front, p, a, b);
      ConfiguredExactly(p);
      Base64.DecodesExactly(Std, a, salt);
      Base64.DecodesExactly(Std, b, hash);
    }
  }

  ghost predicate Sized(kdf: Kdf) { forall p, s, x, n :: |kdf(p, s, x, n)| == n }

  /** A stored hash of p accepts q exactly when q is short enough and derives the same key. */
  lemma VerifyHashed(kdf: Kdf, p: string, q: string, salt: seq<byte>)
    requires Sized(kdf) && |salt| == SALT_BYTES
    ensures HashPassword(kdf, p, salt).Some? <==> 12 <= |p| <= 1024
    ensures HashPassword(kdf, p, salt).Some? ==>
      (VerifyPassword(kdf, HashPassword(kdf, p, salt).value, q)
       <==> |q| <= 1024 && kdf(q, salt, Configured(), OUTPUT_BYTES) == kdf(p, salt, Configured(), OUTPUT_BYTES))
  {
    hide DecodeHash, EncodeHash;
    var key := kdf(p, salt, Configured(), OUTPUT_BYTES);
    assert |key| == OUTPUT_BYTES;
    DecodeEncodeHash(salt, key);
  }

  /** The stored text carries a salt and a key, and the password derives that key from that salt. */
  ghost predicate Opens(kdf: Kdf, encoded: string, q: string, salt: seq<byte>, key: seq<byte>) {
    && DecodeHash(encoded) == Some(Decoded(Parameters(19456, 2, 1), salt, key))
    && kdf(q, salt, Parameters(19456, 2, 1), 32) == key
  }

  /** Exactly which stored texts accept which passwords: anything that does not decode accepts none. */
  lemma VerifyExactly(kdf: Kdf, encoded: string, q: string)
    ensures VerifyPassword(kdf, encoded, q) <==> |q| <= 1024 && exists salt, key :: Opens(kdf, encoded, q, salt, key)
    ensures forall salt, key | Opens(kdf, encoded, q, salt, key) ::
      |salt| == 16 && |key| == 32 && exists front, p, a, b :: Accepted(encoded, salt, key, front, p, a, b)
  {
    var d := DecodeHash(encoded);
    if d.Some? {
      DecodesExactlyAccepted(encoded, d.value.salt, d.value.hash);
      SizedWhenDecoded(encoded);
      hide DecodeHash, Accepted;
      if VerifyPassword(kdf, encoded, q) { assert Opens(kdf, encoded, q, d.value.salt, d.value.hash); }
    }
  }

  lemma SizedWhenDecoded(encoded: string)
    requires DecodeHash(encoded).Some?
    ensures |DecodeHash(encoded).value.salt| == 16 && |DecodeHash(encoded).value.hash| == 32
  {
    hide Decode, ParseParameters;
  }
}
