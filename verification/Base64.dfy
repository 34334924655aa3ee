/**
 Unpadded base64 as Go's strict decoder reads it (sections 3.2, 3.5, 4 and 5 of RFC 4648).
 The decoder drops CR and LF before decoding, even in strict mode.
 */
module Base64 {
  import opened Wrappers

  type byte = x: int | 0 <= x < 256

  /** The two alphabets: base64.RawStdEncoding and base64.RawURLEncoding. */
  datatype Alphabet = Std | Url

  function Char62(a: Alphabet): char { if a.Std? then '+' else '-' }

  function Char63(a: Alphabet): char { if a.Std? then '/' else '_' }

  function EncodeChar(a: Alphabet, i: int): char
    requires 0 <= i < 64
  {
    if i < 26 then ('A' as int + i) as char
    else if i < 52 then ('a' as int + (i - 26)) as char
    else if i < 62 then ('0' as int + (i - 52)) as char
    else if i == 62 then Char62(a)
    else Char63(a)
  }

  function DecodeChar(a: Alphabet, c: char): (i: Option<int>)
    ensures i.Some? ==> 0 <= i.value < 64
  {
    if 'A' <= c <= 'Z' then Some(c as int - 'A' as int)
    else if 'a' <= c <= 'z' then Some(c as int - 'a' as int + 26)
    else if '0' <= c <= '9' then Some(c as int - '0' as int + 52)
    else if c == Char62(a) then Some(62)
    else if c == Char63(a) then Some(63)
    else None
  }

  lemma DecodeEncodeChar(a: Alphabet, i: int)
    requires 0 <= i < 64
    ensures DecodeChar(a, EncodeChar(a, i)) == Some(i)
  {
  }

  lemma EncodeDecodeChar(a: Alphabet, c: char)
    requires DecodeChar(a, c).Some?
    ensures EncodeChar(a, DecodeChar(a, c).value) == c
  {
  }

  const UPPER: string := "ABCDEFGHIJKLM" + "NOPQRSTUVWXYZ"
  const LOWER: string := "abcdefghijklm" + "nopqrstuvwxyz"
  const DIGITS: string := "0123456789"

  /** The characters of tables 1 and 2 of RFC 4648, in order. */
  function Table(a: Alphabet): string { UPPER + LOWER + DIGITS + (if a.Std? then "+/" else "-_") }

  lemma Letters(i: int)
    requires 0 <= i < 26
    ensures |UPPER| == |LOWER| == 26
    ensures UPPER[i] == ('A' as int + i) as char && LOWER[i] == ('a' as int + i) as char
  {
    if i < 13 {
      assert UPPER[i] == "ABCDEFGHIJKLM"[i] && LOWER[i] == "abcdefghijklm"[i];
    } else {
      assert UPPER[i] == "NOPQRSTUVWXYZ"[i - 13] && LOWER[i] == "nopqrstuvwxyz"[i - 13];
    }
  }

  lemma InFourParts(u: string, l: string, d: string, e: string, i: int)
    requires |u| == 26 && |l| == 26 && |d| == 10 && |e| == 2 && 0 <= i < 64
    ensures |u + l + d + e| == 64
    ensures (u + l + d + e)[i] ==
      if i < 26 then u[i] else if i < 52 then l[i - 26] else if i < 62 then d[i - 52] else e[i - 62]
  {
  }

  lemma Numerals(i: int)
    requires 0 <= i < 10
    ensures |DIGITS| == 10 && DIGITS[i] == ('0' as int + i) as char
  {
  }

  /** The encoder's characters are the table's. */
  lemma EncodesByTable(a: Alphabet, i: int)
    requires 0 <= i < 64
    ensures |Table(a)| == 64 && EncodeChar(a, i) == Table(a)[i]
  {
    Letters(if i < 26 then i else if i < 52 then i - 26 else 0);
    Numerals(if 52 <= i < 62 then i - 52 else 0);
    InFourParts(UPPER, LOWER, DIGITS, if a.Std? then "+/" else "-_", i);
  }

  // ---------- grouping bits ----------

  type sextet = x: int | 0 <= x < 64

  function S0(x: byte): sextet { x / 4 }
  function S1(x: byte, y: byte): sextet { x % 4 * 16 + y / 16 }
  function S2(y: byte, z: byte): sextet { y % 16 * 4 + z / 64 }
  function S3(z: byte): sextet { z % 64 }

  function B0(p: sextet, q: sextet): byte { p * 4 + q / 16 }
  function B1(q: sextet, r: sextet): byte { q % 16 * 16 + r / 4 }
  function B2(r: sextet, t: sextet): byte { r % 4 * 64 + t }

  lemma RegroupBytes(x: byte, y: byte, z: byte)
    ensures B0(S0(x), S1(x, y)) == x && B1(S1(x, y), S2(y, z)) == y && B2(S2(y, z), S3(z)) == z
  {
  }

  lemma RegroupSextets(p: sextet, q: sextet, r: sextet, t: sextet)
    ensures S0(B0(p, q)) == p && S1(B0(p, q), B1(q, r)) == q && S2(B1(q, r), B2(r, t)) == r && S3(B2(r, t)) == t
  {
  }

  /** The unused low bits of a two-character last quantum are zero, and carry nothing. */
  lemma ShortQuantum2(x: byte, p: sextet, q: sextet)
    ensures S1(x, 0) % 16 == 0 && B0(S0(x), S1(x, 0)) == x
    ensures q % 16 == 0 ==> S0(B0(p, q)) == p && S1(B0(p, q), 0) == q
  {
    var k := x % 4;
    assert S1(x, 0) == 16 * k;
    var j := q / 16;
    if q % 16 == 0 {
      assert q == 16 * j;
      assert B0(p, q) == 4 * p + j;
    }
  }

  /** The unused low bits of a three-character last quantum are zero, and carry nothing. */
  lemma ShortQuantum3(y: byte, q: sextet, r: sextet)
    ensures S2(y, 0) % 4 == 0
    ensures r % 4 == 0 ==> S2(B1(q, r), 0) == r
  {
    var k := y % 16;
    assert S2(y, 0) == 4 * k;
    var j, m := r / 4, q % 16;
    if r % 4 == 0 {
      assert r == 4 * j;
      assert B1(q, r) == 16 * m + j;
    }
  }

  /** A quantum's sextets and bytes are the same big-endian number; short quanta are padded with zero bits. */
  lemma QuantumValue(x: byte, y: byte, z: byte)
    ensures S0(x) * 262144 + S1(x, y) * 4096 + S2(y, z) * 64 + S3(z) == x * 65536 + y * 256 + z
    ensures S0(x) * 64 + S1(x, 0) == x * 16
    ensures S0(x) * 4096 + S1(x, y) * 64 + S2(y, 0) == (x * 256 + y) * 4
  {
  }

  /** Three bytes become four sextets; one or two left over become two or three. */
  function Pack(b: seq<byte>): seq<sextet> {
    if |b| == 0 then []
    else if |b| == 1 then [S0(b[0]), S1(b[0], 0)]
    else if |b| == 2 then [S0(b[0]), S1(b[0], b[1]), S2(b[1], 0)]
    else [S0(b[0]), S1(b[0], b[1]), S2(b[1], b[2]), S3(b[2])] + Pack(b[3..])
  }

  /**
   The quantum decoder. A lone trailing sextet is corrupt, and strict mode rejects a short
   last quantum whose unused low bits are not zero.
   */
  function Unpack(s: seq<sextet>): Option<seq<byte>> {
    if |s| == 0 then Some([])
    else if |s| == 1 then None
    else if |s| == 2 then
      if s[1] % 16 != 0 then None else Some([B0(s[0], s[1])])
    else if |s| == 3 then
      if s[2] % 4 != 0 then None else Some([B0(s[0], s[1]), B1(s[1], s[2])])
    else
      var rest := Unpack(s[4..]);
      if rest.None? then None
      else Some([B0(s[0], s[1]), B1(s[1], s[2]), B2(s[2], s[3])] + rest.value)
  }

  lemma {:induction false} PackLength(b: seq<byte>)
    ensures |Pack(b)| == (4 * |b| + 2) / 3
  {
    if |b| >= 3 { PackLength(b[3..]); }
  }

  lemma UnpackPair(s: seq<sextet>, x: byte)
    requires |s| == 2 && s[1] % 16 == 0 && B0(s[0], s[1]) == x
    ensures Unpack(s) == Some([x])
  {
  }

  lemma UnpackOne(x: byte)
    ensures Unpack(Pack([x])) == Some([x])
  {
    var s := Pack([x]);
    assert s[1] % 16 == 0 && B0(s[0], s[1]) == x by {
      ShortQuantum2(x, 0, 0);
    }
    UnpackPair(s, x);
  }

  lemma UnpackThree(s: seq<sextet>, x: byte, y: byte)
    requires |s| == 3 && s[2] % 4 == 0 && B0(s[0], s[1]) == x && B1(s[1], s[2]) == y
    ensures Unpack(s) == Some([x, y])
  {
  }

  lemma UnpackTwo(x: byte, y: byte)
    ensures Unpack(Pack([x, y])) == Some([x, y])
  {
    var s := Pack([x, y]);
    assert s[2] % 4 == 0 && B0(s[0], s[1]) == x && B1(s[1], s[2]) == y by {
      RegroupBytes(x, y, 0);
      ShortQuantum3(y, 0, 0);
    }
    UnpackThree(s, x, y);
  }

  lemma UnpackQuantum(x: byte, y: byte, z: byte, rest: seq<byte>)
    requires Unpack(Pack(rest)) == Some(rest)
    ensures Unpack(Pack([x, y, z] + rest)) == Some([x, y, z] + rest)
  {
    var b := [x, y, z] + rest;
    assert b[3..] == rest;
    var s := Pack(b);
    assert s[4..] == Pack(rest);
    RegroupBytes(x, y, z);
  }

  lemma {:induction false} UnpackPack(b: seq<byte>)
    ensures Unpack(Pack(b)) == Some(b)
    decreases |b|
  {
    if |b| >= 3 {
      var rest := b[3..];
      UnpackPack(rest);
      UnpackQuantum(b[0], b[1], b[2], rest);
      assert b == [b[0], b[1], b[2]] + rest;
    } else if |b| == 2 {
      UnpackTwo(b[0], b[1]);
      assert b == [b[0], b[1]];
    } else if |b| == 1 {
      UnpackOne(b[0]);
      assert b == [b[0]];
    }
  }

  lemma PackPair(p: sextet, q: sextet)
    requires q % 16 == 0
    ensures Pack([B0(p, q)]) == [p, q]
  {
    ShortQuantum2(0, p, q);
  }

  lemma PackTriple(p: sextet, q: sextet, r: sextet)
    requires r % 4 == 0
    ensures Pack([B0(p, q), B1(q, r)]) == [p, q, r]
  {
    RegroupSextets(p, q, r, 0);
    ShortQuantum3(0, q, r);
  }

  lemma PackQuantum(p: sextet, q: sextet, r: sextet, t: sextet, rest: seq<byte>)
    ensures Pack([B0(p, q), B1(q, r), B2(r, t)] + rest) == [p, q, r, t] + Pack(rest)
  {
    var b := [B0(p, q), B1(q, r), B2(r, t)] + rest;
    assert b[3..] == rest;
    RegroupSextets(p, q, r, t);
  }

  lemma {:induction false} PackUnpack(s: seq<sextet>)
    requires Unpack(s).Some?
    ensures Pack(Unpack(s).value) == s
  {
    if |s| == 2 {
      PackPair(s[0], s[1]);
    } else if |s| == 3 {
      PackTriple(s[0], s[1], s[2]);
    } else if |s| >= 4 {
      PackUnpack(s[4..]);
      PackQuantum(s[0], s[1], s[2], s[3], Unpack(s[4..]).value);
      assert s == [s[0], s[1], s[2], s[3]] + s[4..];
    }
  }

  // ---------- characters ----------

  function EncodeChars(a: Alphabet, s: seq<sextet>): (r: string)
    ensures |r| == |s|
  {
    if |s| == 0 then "" else [EncodeChar(a, s[0])] + EncodeChars(a, s[1..])
  }

  function DecodeChars(a: Alphabet, r: string): Option<seq<sextet>> {
    if r == "" then Some([])
    else
      var i, rest := DecodeChar(a, r[0]), DecodeChars(a, r[1..]);
      if i.None? || rest.None? then None else Some([i.value] + rest.value)
  }

  lemma {:induction false} DecodeEncodeChars(a: Alphabet, s: seq<sextet>)
    ensures DecodeChars(a, EncodeChars(a, s)) == Some(s)
    ensures forall c | c in EncodeChars(a, s) :: DecodeChar(a, c).Some?
  {
    if |s| > 0 {
      DecodeEncodeChars(a, s[1..]);
      DecodeEncodeChar(a, s[0]);
      assert EncodeChars(a, s)[1..] == EncodeChars(a, s[1..]);
      assert s == [s[0]] + s[1..];
    }
  }

  lemma {:induction false} EncodeDecodeChars(a: Alphabet, r: string)
    requires DecodeChars(a, r).Some?
    ensures EncodeChars(a, DecodeChars(a, r).value) == r
  {
    if r != "" {
      EncodeDecodeChars(a, r[1..]);
      EncodeDecodeChar(a, r[0]);
      assert DecodeChars(a, r).value[1..] == DecodeChars(a, r[1..]).value;
      assert r == [r[0]] + r[1..];
    }
  }

  /** Encoding.EncodeToString on an unpadded encoding. */
  function Encode(a: Alphabet, b: seq<byte>): string {
    EncodeChars(a, Pack(b))
  }

  function StripNewlines(s: string): string {
    if s == "" then ""
    else if s[0] == '\r' || s[0] == '\n' then StripNewlines(s[1..])
    else [s[0]] + StripNewlines(s[1..])
  }

  /** Stripping works character by character, and drops CR and LF only. */
  lemma {:induction false} StripsNewlinesOnly(s: string, t: string, c: char)
    ensures StripNewlines(s + t) == StripNewlines(s) + StripNewlines(t)
    ensures StripNewlines([c]) == if c == '\r' || c == '\n' then "" else [c]
  {
    assert [c][1..] == "";
    if s == "" {
      assert s + t == t;
    } else {
      StripsNewlinesOnly(s[1..], t, c);
      assert (s + t)[1..] == s[1..] + t;
    }
  }

  /** Encoding.Strict().DecodeString on an unpadded encoding. */
  function Decode(a: Alphabet, s: string): Option<seq<byte>> {
    var sextets := DecodeChars(a, StripNewlines(s));
    if sextets.None? then None else Unpack(sextets.value)
  }

  lemma {:induction false} StripAlphabet(a: Alphabet, s: string)
    requires forall c | c in s :: DecodeChar(a, c).Some?
    ensures StripNewlines(s) == s
  {
    if s != "" {
      assert s[0] in s;
      assert s == [s[0]] + s[1..];
      StripAlphabet(a, s[1..]);
    }
  }

  /** Encoded text has the expected length and only alphabet characters. */
  lemma EncodeShape(a: Alphabet, b: seq<byte>)
    ensures |Encode(a, b)| == (4 * |b| + 2) / 3
    ensures forall c | c in Encode(a, b) :: DecodeChar(a, c).Some?
    ensures StripNewlines(Encode(a, b)) == Encode(a, b)
  {
    PackLength(b);
    DecodeEncodeChars(a, Pack(b));
    StripAlphabet(a, Encode(a, b));
  }

  /** Decoding undoes encoding, whatever the bytes. */
  lemma DecodeEncode(a: Alphabet, b: seq<byte>)
    ensures Decode(a, Encode(a, b)) == Some(b)
  {
    EncodeShape(a, b);
    DecodeEncodeChars(a, Pack(b));
    UnpackPack(b);
  }

  /** A string decodes to b exactly when it is b's encoding with CR and LF sprinkled in. */
  lemma DecodesExactly(a: Alphabet, s: string, b: seq<byte>)
    ensures Decode(a, s) == Some(b) <==> StripNewlines(s) == Encode(a, b)
  {
    var clean := StripNewlines(s);
    if Decode(a, s) == Some(b) {
      EncodeDecodeChars(a, clean);
      PackUnpack(DecodeChars(a, clean).value);
    }
    if clean == Encode(a, b) {
      DecodeEncodeChars(a, Pack(b));
      UnpackPack(b);
    }
  }
}
