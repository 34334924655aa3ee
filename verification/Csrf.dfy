/**
 CSRF contexts and tokens: a length-framed MAC input, dot-separated text, strict unpadded
 base64 and a decimal expiry. The MAC is any function from text to 32 bytes; the process key
 is part of it. Times are nanoseconds since the Unix epoch.
 */
module Csrf {
  import opened Wrappers
  import opened Base64
  import opened Clock
  import Text

  const CONTEXT_LIFETIME: int := 15 * 60 * SECOND
  const CONTEXT_DOMAIN: string := "gopanel-login-context-v1"
  const LOGIN_DOMAIN: string := "gopanel-csrf-v1-login"
  const AUTH_DOMAIN: string := "gopanel-csrf-v1-authenticated"

  // ---------- framing ----------

  /** n as w big-endian bytes, one char each. */
  function BigEndian(n: nat, w: nat): (s: string)
    ensures |s| == w
  {
    if w == 0 then "" else BigEndian(n / 256, w - 1) + [(n % 256) as char]
  }

  function Power256(w: nat): nat {
    if w == 0 then 1 else 256 * Power256(w - 1)
  }

  /** binary.BigEndian.PutUint64(uint64(len(value))), which keeps the low 64 bits, then the value. */
  function Frame(value: string): string {
    BigEndian(|value|, 8) + value
  }

  function Frames(fields: seq<string>): string {
    if |fields| == 0 then "" else Frame(fields[0]) + Frames(fields[1..])
  }

  /** What mac feeds the hash: the version, the domain and each field, framed. */
  function MacInput(domain: string, fields: seq<string>): string {
    Frames(["v1", domain] + fields)
  }

  /** The number a string of bytes spells, most significant byte first. */
  function Number(s: string): nat {
    if s == "" then 0 else 256 * Number(s[..|s| - 1]) + s[|s| - 1] as int
  }

  lemma {:induction false} BigEndianNumber(n: nat, w: nat)
    requires n < Power256(w)
    ensures Number(BigEndian(n, w)) == n
  {
    if w > 0 {
      BigEndianNumber(n / 256, w - 1);
      assert BigEndian(n, w)[..w - 1] == BigEndian(n / 256, w - 1);
      assert BigEndian(n, w)[w - 1] as int == n % 256;
    }
  }

  lemma FramesCons(f: string, fields: seq<string>)
    ensures Frames([f] + fields) == BigEndian(|f|, 8) + f + Frames(fields)
  {
    hide BigEndian;
    assert ([f] + fields)[1..] == fields;
  }

  /** The framed input character for character: version, domain and fields, each after its length in eight bytes. */
  lemma MacInputLayout(domain: string, first: string, fields: seq<string>)
    ensures MacInput(domain, []) == BigEndian(2, 8) + "v1" + BigEndian(|domain|, 8) + domain
    ensures Frames([first] + fields) == BigEndian(|first|, 8) + first + Frames(fields)
    ensures MacInput(domain, fields) == MacInput(domain, []) + Frames(fields)
  {
    hide BigEndian, Frames;
    FramesCons(first, fields);
    FramesCons("v1", [domain] + fields);
    FramesCons(domain, fields);
    FramesCons("v1", [domain]);
    FramesCons(domain, []);
    NoFrames();
    assert ["v1", domain] + fields == ["v1"] + ([domain] + fields);
    assert ["v1", domain] + [] == ["v1"] + [domain] && [domain] + [] == [domain];
  }

  lemma NoFrames()
    ensures Frames([]) == ""
  {
  }

  lemma {:induction false} BigEndianInjective(n: nat, m: nat, w: nat)
    requires n < Power256(w) && m < Power256(w) && BigEndian(n, w) == BigEndian(m, w)
    ensures n == m
  {
    if w > 0 {
      var p, q := BigEndian(n / 256, w - 1), BigEndian(m / 256, w - 1);
      assert BigEndian(n, w)[..w - 1] == p && BigEndian(m, w)[..w - 1] == q;
      assert BigEndian(n, w)[w - 1] == (n % 256) as char && BigEndian(m, w)[w - 1] == (m % 256) as char;
      assert ((n % 256) as char) as int == n % 256;
      BigEndianInjective(n / 256, m / 256, w - 1);
    }
  }

  /** A length that fits in 64 bits. */
  ghost predicate Measured(value: string) { |value| < Power256(8) }

  /** A frame announces where it ends, so what follows cannot be taken for part of it. */
  lemma FrameHead(a: string, b: string, x: string, y: string)
    requires Measured(a) && Measured(b) && Frame(a) + x == Frame(b) + y
    ensures a == b && x == y
  {
    var s := Frame(a) + x;
    assert s[..8] == BigEndian(|a|, 8) && s[..8] == BigEndian(|b|, 8);
    BigEndianInjective(|a|, |b|, 8);
    assert s[8..8 + |a|] == a && s[8..8 + |b|] == b;
    assert s[8 + |a|..] == x && s[8 + |b|..] == y;
  }

  lemma {:induction false} FramesInjective(f: seq<string>, g: seq<string>)
    requires forall v | v in f :: Measured(v)
    requires forall v | v in g :: Measured(v)
    requires Frames(f) == Frames(g)
    ensures f == g
  {
    if |f| > 0 && |g| > 0 {
      assert f[0] in f && g[0] in g;
      FrameHead(f[0], g[0], Frames(f[1..]), Frames(g[1..]));
      FramesInjective(f[1..], g[1..]);
      assert f == [f[0]] + f[1..] && g == [g[0]] + g[1..];
    }
  }

  /** MAC inputs coincide only for the same domain and the same list of fields. */
  lemma MacInputInjective(d: string, f: seq<string>, e: string, g: seq<string>)
    requires Measured(d) && Measured(e)
    requires (forall v | v in f :: Measured(v)) && (forall v | v in g :: Measured(v))
    requires MacInput(d, f) == MacInput(e, g)
    ensures d == e && f == g
  {
    var p, q := ["v1", d] + f, ["v1", e] + g;
    SmallIsMeasured("v1");
    forall v | v in p ensures Measured(v) { assert v == "v1" || v == d || v in f; }
    forall v | v in q ensures Measured(v) { assert v == "v1" || v == e || v in g; }
    FramesInjective(p, q);
    assert p[1] == d && q[1] == e && p[2..] == f && q[2..] == g;
  }

  lemma SmallIsMeasured(v: string)
    requires |v| < 256
    ensures Measured(v)
  {
    assert Power256(1) == 256;
    PowerGrows(1, 8);
  }

  lemma {:induction false} PowerGrows(v: nat, w: nat)
    requires v <= w
    ensures 1 <= Power256(v) <= Power256(w)
    decreases w
  {
    if v < w { PowerGrows(v, w - 1); } else if v > 0 { PowerGrows(v - 1, w - 1); }
  }

  /** The running hash that mac writes its frames into. */
  class RunningHash {
    var written: string

    constructor ()
      ensures written == ""
    {
      written := "";
    }

    method Write(data: string)
      modifies this
      ensures written == old(written) + data
    {
      written := written + data;
    }

    method WriteFrame(value: string)
      modifies this
      ensures written == old(written) + Frame(value)
    {
      var before := written;
      Write(BigEndian(|value|, 8));
      Write(value);
      assert written == before + (BigEndian(|value|, 8) + value);
    }
  }

  lemma {:induction false} FramesSnoc(fields: seq<string>, value: string)
    ensures Frames(fields + [value]) == Frames(fields) + Frame(value)
  {
    if |fields| > 0 {
      FramesSnoc(fields[1..], value);
      assert (fields + [value])[1..] == fields[1..] + [value];
    } else {
      assert ([] + [value])[1..] == [];
    }
  }

  type Mac = string -> seq<byte>

  ghost predicate Sized(mac: Mac) { forall s :: |mac(s)| == 32 }

  /** mac writes the frames one by one; the digest is of MacInput. */
  method ComputeMac(mac: Mac, domain: string, fields: seq<string>) returns (sum: seq<byte>)
    ensures sum == mac(MacInput(domain, fields))
  {
    var hash := new RunningHash();
    hash.WriteFrame("v1");
    hash.WriteFrame(domain);
    assert hash.written == Frames(["v1", domain]) by {
      FramesSnoc([], "v1");
      FramesSnoc(["v1"], domain);
      assert [] + ["v1"] == ["v1"] && ["v1"] + [domain] == ["v1", domain];
    }
    for i := 0 to |fields|
      invariant hash.written == Frames(["v1", domain] + fields[..i])
    {
      FramesSnoc(["v1", domain] + fields[..i], fields[i]);
      assert ["v1", domain] + fields[..i] + [fields[i]] == ["v1", domain] + fields[..i + 1];
      hash.WriteFrame(fields[i]);
    }
    assert fields[..|fields|] == fields;
    sum := mac(hash.written);
  }

  // ---------- tokens ----------

  function TokenInput(domain: string, context: string, nonce: string, expiration: string): string {
    MacInput(domain, [context, nonce, expiration])
  }

  function TokenMac(mac: Mac, domain: string, context: string, nonce: string, expiration: string): seq<byte> {
    mac(TokenInput(domain, context, nonce, expiration))
  }

  /** newToken, given its random nonce. */
  function NewToken(mac: Mac, domain: string, context: string, expiration: string, nonce: seq<byte>): string {
    var encoded := Encode(Url, nonce);
    "v1." + encoded + "." + Encode(Url, TokenMac(mac, domain, context, encoded, expiration))
  }

  predicate ValidateToken(mac: Mac, domain: string, context: string, expiration: string, token: string) {
    var parts := Text.Split(token, '.');
    if |parts| != 3 || parts[0] != "v1" then false
    else
      var nonce, provided := Decode(Url, parts[1]), Decode(Url, parts[2]);
      if nonce.None? || |nonce.value| != 32 then false
      else if provided.None? || |provided.value| != 32 then false
      else provided.value == TokenMac(mac, domain, context, parts[1], expiration)
  }

  lemma NoDots(b: seq<byte>)
    ensures '.' !in Encode(Url, b)
  {
    EncodeShape(Url, b);
  }

  lemma SplitToken(nonce: string, sum: string)
    requires '.' !in nonce && '.' !in sum
    ensures Text.Split("v1." + nonce + "." + sum, '.') == ["v1", nonce, sum]
  {
    hide Text.Split;
    Text.SplitHead(sum, "", '.');
    Text.SplitHead(nonce, sum, '.');
    Text.SplitHead("v1", nonce + ['.'] + sum, '.');
    assert "v1." + nonce + "." + sum == "v1" + ['.'] + (nonce + ['.'] + sum);
  }

  /** A fresh token validates for the context, domain and expiry it was issued for. */
  lemma TokenValidates(mac: Mac, domain: string, context: string, expiration: string, nonce: seq<byte>)
    requires Sized(mac) && |nonce| == 32
    ensures ValidateToken(mac, domain, context, expiration, NewToken(mac, domain, context, expiration, nonce))
  {
    var encoded := Encode(Url, nonce);
    var sum := TokenMac(mac, domain, context, encoded, expiration);
    NoDots(nonce);
    NoDots(sum);
    SplitToken(encoded, Encode(Url, sum));
    DecodeEncode(Url, nonce);
    DecodeEncode(Url, sum);
  }

  /**
   Two given inputs differ and have one MAC. Statements name the pair: some pair always exists,
   since there are more inputs than sums.
   */
  ghost predicate Collide(mac: Mac, x: string, y: string) { x != y && mac(x) == mac(y) }

  /**
   A token issued under one domain, context and expiry validates under another only if the two
   MAC inputs collide.
   */
  lemma TokenBinds(mac: Mac, d: string, c: string, x: string, nonce: seq<byte>, e: string, k: string, y: string)
    requires Sized(mac) && |nonce| == 32
    requires Measured(d) && Measured(e) && Measured(c) && Measured(k) && Measured(x) && Measured(y)
    requires ValidateToken(mac, e, k, y, NewToken(mac, d, c, x, nonce))
    ensures
      var n := Encode(Url, nonce);
      (d == e && c == k && x == y) || Collide(mac, TokenInput(d, c, n, x), TokenInput(e, k, n, y))
  {
    var n := Encode(Url, nonce);
    var sum := TokenMac(mac, d, c, n, x);
    NoDots(nonce);
    NoDots(sum);
    SplitToken(n, Encode(Url, sum));
    DecodeEncode(Url, sum);
    assert mac(TokenInput(d, c, n, x)) == mac(TokenInput(e, k, n, y));
    if TokenInput(d, c, n, x) == TokenInput(e, k, n, y) {
      EncodeShape(Url, nonce);
      SmallIsMeasured(n);
      MacInputInjective(d, [c, n, x], e, [k, n, y]);
      assert [c, n, x][0] == c && [k, n, y][0] == k && [c, n, x][2] == x && [k, n, y][2] == y;
    }
  }

  /** The strings a token check accepts: a 32-byte nonce, and the MAC's text up to CR and LF. */
  lemma AcceptsExactly(mac: Mac, domain: string, context: string, expiration: string, token: string)
    requires Sized(mac)
    ensures ValidateToken(mac, domain, context, expiration, token) <==>
      var parts := Text.Split(token, '.');
      && |parts| == 3 && parts[0] == "v1"
      && (exists nonce: seq<byte> :: |nonce| == 32 && StripNewlines(parts[1]) == Encode(Url, nonce))
      && StripNewlines(parts[2]) == Encode(Url, TokenMac(mac, domain, context, parts[1], expiration))
  {
    var parts := Text.Split(token, '.');
    if |parts| == 3 {
      var sum := TokenMac(mac, domain, context, parts[1], expiration);
      DecodesExactly(Url, parts[2], sum);
      forall nonce: seq<byte> | StripNewlines(parts[1]) == Encode(Url, nonce)
        ensures Decode(Url, parts[1]) == Some(nonce)
      {
        DecodesExactly(Url, parts[1], nonce);
      }
      if Decode(Url, parts[1]).Some? { DecodesExactly(Url, parts[1], Decode(Url, parts[1]).value); }
    }
  }

  // ---------- authenticated forms ----------

  function AuthToken(mac: Mac, session: string, nonce: seq<byte>): string {
    NewToken(mac, AUTH_DOMAIN, session, "", nonce)
  }

  predicate ValidateAuth(mac: Mac, session: string, token: string) {
    session != "" && ValidateToken(mac, AUTH_DOMAIN, session, "", token)
  }

  // ---------- login contexts ----------

  const INT64: int := 0x1_0000_0000_0000_0000
  const UNIX_TO_INTERNAL: int := 62_135_596_800

  /** Two's-complement wrap-around of a 64-bit sum. */
  function Wrap(n: int): int {
    (n + INT64 / 2) % INT64 - INT64 / 2
  }

  /** time.Unix(sec, 0).After(now), with Go's internal seconds counted from year 1. */
  predicate UnixAfter(sec: int, now: int) {
    (Wrap(sec + UNIX_TO_INTERNAL) - UNIX_TO_INTERNAL) * SECOND > now
  }

  /** now.Add(15 minutes).Unix() */
  function ExpirySeconds(now: int): int {
    (now + CONTEXT_LIFETIME) / SECOND
  }

  function ContextMac(mac: Mac, context: string, exp: string): seq<byte> {
    mac(MacInput(CONTEXT_DOMAIN, [context, exp]))
  }

  /** The cookie of NewLoginContext, given its 32 random bytes. */
  function NewCookie(mac: Mac, now: int, random: seq<byte>): string {
    var context, exp := Encode(Url, random), Text.FormatInt(ExpirySeconds(now));
    "v1." + context + "." + exp + "." + Encode(Url, ContextMac(mac, context, exp))
  }

  /** validateLoginContext: the expiry in Unix seconds, or None for every error. */
  function ValidateContext(mac: Mac, value: string, now: int): Option<int> {
    var parts := Text.Split(value, '.');
    if |parts| != 4 || parts[0] != "v1" then None
    else
      var context := Decode(Url, parts[1]);
      if context.None? || |context.value| != 32 then None
      else
        var exp := Text.ParseInt64(parts[2]);
        if exp.None? || !UnixAfter(exp.value, now) then None
        else
          var provided := Decode(Url, parts[3]);
          if provided.None? || |provided.value| != 32 then None
          else if provided.value != ContextMac(mac, parts[1], parts[2]) then None
          else exp
  }

  function LoginToken(mac: Mac, cookie: string, now: int, nonce: seq<byte>): Option<string> {
    var exp := ValidateContext(mac, cookie, now);
    if exp.None? then None else Some(NewToken(mac, LOGIN_DOMAIN, cookie, Text.FormatInt(exp.value), nonce))
  }

  predicate ValidateLogin(mac: Mac, cookie: string, token: string, now: int) {
    var exp := ValidateContext(mac, cookie, now);
    exp.Some? && ValidateToken(mac, LOGIN_DOMAIN, cookie, Text.FormatInt(exp.value), token)
  }

  /** The token NewLoginContext returns with its cookie. */
  function FirstToken(mac: Mac, now: int, random: seq<byte>, nonce: seq<byte>): string {
    NewToken(mac, LOGIN_DOMAIN, NewCookie(mac, now, random), Text.FormatInt(ExpirySeconds(now)), nonce)
  }

  /** Clock readings whose expiry neither overflows a 64-bit second count nor wraps. */
  predicate InRange(now: int) {
    -Text.INT64_LIMIT <= ExpirySeconds(now) < Text.INT64_LIMIT - UNIX_TO_INTERNAL
  }

  lemma {:induction false} DecimalNoDot(n: nat)
    ensures '.' !in Text.Decimal(n)
  {
    assert !Text.IsDigit('.');
  }

  lemma FormatIntNoDot(n: int)
    ensures '.' !in Text.FormatInt(n)
  {
    DecimalNoDot(if n < 0 then -n else n);
  }

  lemma SplitCookie(context: string, exp: string, sum: string)
    requires '.' !in context && '.' !in exp && '.' !in sum
    ensures Text.Split("v1." + context + "." + exp + "." + sum, '.') == ["v1", context, exp, sum]
  {
    hide Text.Split;
    Text.SplitHead(sum, "", '.');
    Text.SplitHead(exp, sum, '.');
    Text.SplitHead(context, exp + ['.'] + sum, '.');
    Text.SplitHead("v1", context + ['.'] + (exp + ['.'] + sum), '.');
    assert "v1." + context + "." + exp + "." + sum == "v1" + ['.'] + (context + ['.'] + (exp + ['.'] + sum));
  }

  lemma AfterInRange(now: int, t: int)
    requires InRange(now)
    ensures UnixAfter(ExpirySeconds(now), t) <==> t < ExpirySeconds(now) * SECOND
  {
    var n := ExpirySeconds(now) + UNIX_TO_INTERNAL;
    assert -INT64 / 2 <= n < INT64 / 2;
    assert Wrap(n) == n;
  }

  /** A fresh cookie is accepted exactly until its whole-second expiry. */
  lemma CookieValidates(mac: Mac, now: int, random: seq<byte>, t: int)
    requires Sized(mac) && |random| == 32 && InRange(now)
    ensures ValidateContext(mac, NewCookie(mac, now, random), t)
      == if t < ExpirySeconds(now) * SECOND then Some(ExpirySeconds(now)) else None
  {
    var context, exp := Encode(Url, random), Text.FormatInt(ExpirySeconds(now));
    var sum := ContextMac(mac, context, exp);
    NoDots(random);
    NoDots(sum);
    FormatIntNoDot(ExpirySeconds(now));
    SplitCookie(context, exp, Encode(Url, sum));
    DecodeEncode(Url, random);
    DecodeEncode(Url, sum);
    Text.ParseFormatInt(ExpirySeconds(now));
    AfterInRange(now, t);
  }

  /**
   The wall-clock instant of an expiry in Unix seconds: its own, but for the last seconds of the 64-bit
   range, which Go's internal second count carries below its range.
   */
  function ExpiryInstant(x: int): int {
    (if x < 0x8000_0000_0000_0000 - 62_135_596_800 then x else x - 0x1_0000_0000_0000_0000) * 1_000_000_000
  }

  lemma AfterExactly(x: int, t: int)
    requires -Text.INT64_LIMIT <= x < Text.INT64_LIMIT
    ensures UnixAfter(x, t) <==> t < ExpiryInstant(x)
  {
    var n := x + UNIX_TO_INTERNAL;
    if x < Text.INT64_LIMIT - UNIX_TO_INTERNAL { assert Wrap(n) == n; } else { assert Wrap(n) == n - INT64; }
  }

  /** A context cookie's fields: a version, a 32-byte context, an expiry and the MAC of these two. */
  ghost predicate Context(mac: Mac, parts: seq<string>, x: int) {
    && |parts| == 4 && parts[0] == "v1"
    && (exists context: seq<byte> :: |context| == 32 && StripNewlines(parts[1]) == Encode(Url, context))
    && Text.ParseInt64(parts[2]) == Some(x)
    && StripNewlines(parts[3]) == Encode(Url, mac(MacInput("gopanel-login-context-v1", [parts[1], parts[2]])))
  }

  /** Exactly which strings are accepted as a context cookie, until when, and with which expiry. */
  lemma ContextExactly(mac: Mac, value: string, t: int, x: int)
    requires Sized(mac)
    ensures ValidateContext(mac, value, t) == Some(x)
      <==> Context(mac, Text.Split(value, '.'), x) && t < ExpiryInstant(x)
  {
    hide Decode, Encode, StripNewlines, Text.Split, Text.ParseInt64, UnixAfter, ExpiryInstant, MacInput;
    var parts := Text.Split(value, '.');
    if |parts| == 4 {
      var sum := ContextMac(mac, parts[1], parts[2]);
      DecodesExactly(Url, parts[3], sum);
      forall context: seq<byte> | StripNewlines(parts[1]) == Encode(Url, context)
        ensures Decode(Url, parts[1]) == Some(context)
      {
        DecodesExactly(Url, parts[1], context);
      }
      if Decode(Url, parts[1]).Some? { DecodesExactly(Url, parts[1], Decode(Url, parts[1]).value); }
      var exp := Text.ParseInt64(parts[2]);
      if exp.Some? {
        InInt64(parts[2]);
        AfterExactly(exp.value, t);
      }
    }
  }

  lemma InInt64(s: string)
    requires Text.ParseInt64(s).Some?
    ensures -Text.INT64_LIMIT <= Text.ParseInt64(s).value < Text.INT64_LIMIT
  {
  }

  /** The same cookie with any other bytes for its MAC is refused, gets no token and validates none. */
  lemma ForgedContextRefused(mac: Mac, context: string, exp: string, forged: seq<byte>, t: int, token: string,
                             nonce: seq<byte>)
    requires Sized(mac) && '.' !in context && '.' !in exp
    requires forged != mac(MacInput(CONTEXT_DOMAIN, [context, exp]))
    ensures
      var cookie := "v1." + context + "." + exp + "." + Encode(Url, forged);
      && ValidateContext(mac, cookie, t) == None
      && LoginToken(mac, cookie, t, nonce) == None
      && !ValidateLogin(mac, cookie, token, t)
  {
    hide Decode, Encode, StripNewlines, Text.ParseInt64, UnixAfter, MacInput, ValidateToken, NewToken, Text.Split;
    NoDots(forged);
    SplitCookie(context, exp, Encode(Url, forged));
    DecodeEncode(Url, forged);
  }

  ghost predicate LoginAccepted(mac: Mac, cookie: string, token: string, t: int, x: int) {
    && Context(mac, Text.Split(cookie, '.'), x) && t < ExpiryInstant(x)
    && ValidateToken(mac, "gopanel-csrf-v1-login", cookie, Text.FormatInt(x), token)
  }

  /** A login token validates exactly with a cookie that is accepted and for its context and expiry. */
  lemma LoginExactly(mac: Mac, cookie: string, token: string, t: int)
    requires Sized(mac)
    ensures ValidateLogin(mac, cookie, token, t)
      <==> exists x :: LoginAccepted(mac, cookie, token, t, x)
  {
    hide ValidateContext, ValidateToken, Context, ExpiryInstant;
    forall x ensures ValidateContext(mac, cookie, t) == Some(x)
      <==> Context(mac, Text.Split(cookie, '.'), x) && t < ExpiryInstant(x)
    {
      ContextExactly(mac, cookie, t, x);
    }
    if ValidateLogin(mac, cookie, token, t) {
      assert LoginAccepted(mac, cookie, token, t, ValidateContext(mac, cookie, t).value);
    }
  }

  /** Cookie and token of a new login context validate exactly before now plus fifteen minutes, in whole seconds. */
  lemma NewLoginContextValidates(mac: Mac, now: int, random: seq<byte>, nonce: seq<byte>, t: int)
    requires Sized(mac) && |random| == 32 && |nonce| == 32 && InRange(now)
    ensures ValidateLogin(mac, NewCookie(mac, now, random), FirstToken(mac, now, random, nonce), t)
      <==> t < (now + 15 * 60 * SECOND) / SECOND * SECOND
  {
    CookieValidates(mac, now, random, t);
    TokenValidates(mac, LOGIN_DOMAIN, NewCookie(mac, now, random), Text.FormatInt(ExpirySeconds(now)), nonce);
  }

  /** A token issued later for the same cookie exists, and validates, over the same time. */
  lemma LoginTokenValidates(mac: Mac, now: int, random: seq<byte>, nonce: seq<byte>, issued: int, t: int)
    requires Sized(mac) && |random| == 32 && |nonce| == 32 && InRange(now)
    ensures
      var cookie, end := NewCookie(mac, now, random), (now + 15 * 60 * SECOND) / SECOND * SECOND;
      var token := LoginToken(mac, cookie, issued, nonce);
      (token.Some? <==> issued < end) && (token.Some? ==> (ValidateLogin(mac, cookie, token.value, t) <==> t < end))
  {
    CookieValidates(mac, now, random, issued);
    CookieValidates(mac, now, random, t);
    TokenValidates(mac, LOGIN_DOMAIN, NewCookie(mac, now, random), Text.FormatInt(ExpirySeconds(now)), nonce);
  }

  /** A login token is good for no other cookie, unless the two token inputs collide. */
  lemma LoginTokenBindsCookie(mac: Mac, cookie: string, other: string, nonce: seq<byte>, issued: int, t: int)
    requires Sized(mac) && |nonce| == 32 && Measured(cookie) && Measured(other)
    requires LoginToken(mac, cookie, issued, nonce).Some?
    requires ValidateLogin(mac, other, LoginToken(mac, cookie, issued, nonce).value, t)
    ensures
      var n := Encode(Url, nonce);
      var x, y := ValidateContext(mac, cookie, issued).value, ValidateContext(mac, other, t).value;
      var p := TokenInput(LOGIN_DOMAIN, cookie, n, Text.FormatInt(x));
      var q := TokenInput(LOGIN_DOMAIN, other, n, Text.FormatInt(y));
      cookie == other || Collide(mac, p, q)
  {
    hide ValidateContext, ValidateToken, NewToken;
    var x, y := ValidateContext(mac, cookie, issued).value, ValidateContext(mac, other, t).value;
    ShortNumeral(mac, cookie, issued);
    ShortNumeral(mac, other, t);
    SmallIsMeasured(LOGIN_DOMAIN);
    TokenBinds(mac, LOGIN_DOMAIN, cookie, Text.FormatInt(x), nonce, LOGIN_DOMAIN, other, Text.FormatInt(y));
  }

  lemma ContextInt64(mac: Mac, cookie: string, now: int)
    requires ValidateContext(mac, cookie, now).Some?
    ensures -Text.INT64_LIMIT <= ValidateContext(mac, cookie, now).value < Text.INT64_LIMIT
  {
  }

  lemma ShortNumeral(mac: Mac, cookie: string, now: int)
    requires ValidateContext(mac, cookie, now).Some?
    ensures Measured(Text.FormatInt(ValidateContext(mac, cookie, now).value))
  {
    hide ValidateContext;
    ContextInt64(mac, cookie, now);
    var n := ValidateContext(mac, cookie, now).value;
    assert Text.Pow10(10) == 10_000_000_000;
    assert Text.Pow10(15) == 1_000_000_000_000_000;
    assert Text.Pow10(19) == 10_000_000_000_000_000_000;
    DecimalLength(if n < 0 then -n else n, 19);
    SmallIsMeasured(Text.FormatInt(n));
  }

  lemma {:induction false} DecimalLength(n: nat, w: nat)
    requires n < 10 * Text.Pow10(w)
    ensures |Text.Decimal(n)| <= w + 1
    decreases w
  {
    if n >= 10 { DecimalLength(n / 10, w - 1); }
  }

  /** An authenticated form's token is good for its own session and, unless the two inputs collide, no other. */
  lemma AuthTokenBindsSession(mac: Mac, session: string, other: string, nonce: seq<byte>)
    requires Sized(mac) && |nonce| == 32 && Measured(session) && Measured(other)
    ensures ValidateAuth(mac, session, AuthToken(mac, session, nonce)) <==> session != ""
    ensures
      var n := Encode(Url, nonce);
      ValidateAuth(mac, other, AuthToken(mac, session, nonce)) ==>
        session == other || Collide(mac, TokenInput(AUTH_DOMAIN, session, n, ""), TokenInput(AUTH_DOMAIN, other, n, ""))
  {
    hide ValidateToken, NewToken;
    SmallIsMeasured(AUTH_DOMAIN);
    SmallIsMeasured("");
    TokenValidates(mac, AUTH_DOMAIN, session, "", nonce);
    if ValidateAuth(mac, other, AuthToken(mac, session, nonce)) {
      TokenBinds(mac, AUTH_DOMAIN, session, "", nonce, AUTH_DOMAIN, other, "");
    }
  }

  lemma DomainsDiffer()
    ensures LOGIN_DOMAIN != AUTH_DOMAIN && CONTEXT_DOMAIN != LOGIN_DOMAIN && CONTEXT_DOMAIN != AUTH_DOMAIN
    ensures Measured(LOGIN_DOMAIN) && Measured(AUTH_DOMAIN) && Measured(CONTEXT_DOMAIN)
  {
    assert |LOGIN_DOMAIN| == 21 && |AUTH_DOMAIN| == 29 && |CONTEXT_DOMAIN| == 24;
    SmallIsMeasured(LOGIN_DOMAIN);
    SmallIsMeasured(AUTH_DOMAIN);
    SmallIsMeasured(CONTEXT_DOMAIN);
  }

  /** No token crosses between the login and the authenticated domain unless the two inputs collide. */
  lemma DomainsSeparate(mac: Mac, cookie: string, session: string, nonce: seq<byte>, t: int)
    requires Sized(mac) && |nonce| == 32 && Measured(cookie) && Measured(session)
    requires ValidateContext(mac, cookie, t).Some?
    ensures
      var n, x := Encode(Url, nonce), Text.FormatInt(ValidateContext(mac, cookie, t).value);
      ValidateLogin(mac, cookie, AuthToken(mac, session, nonce), t)
        || ValidateAuth(mac, session, NewToken(mac, LOGIN_DOMAIN, cookie, x, nonce)) ==>
        Collide(mac, TokenInput(AUTH_DOMAIN, session, n, ""), TokenInput(LOGIN_DOMAIN, cookie, n, x))
  {
    hide ValidateContext, ValidateToken, NewToken;
    var x := Text.FormatInt(ValidateContext(mac, cookie, t).value);
    DomainsDiffer();
    SmallIsMeasured("");
    ShortNumeral(mac, cookie, t);
    if ValidateLogin(mac, cookie, AuthToken(mac, session, nonce), t) {
      TokenBinds(mac, AUTH_DOMAIN, session, "", nonce, LOGIN_DOMAIN, cookie, x);
    }
    if ValidateAuth(mac, session, NewToken(mac, LOGIN_DOMAIN, cookie, x, nonce)) {
      TokenBinds(mac, LOGIN_DOMAIN, cookie, x, nonce, AUTH_DOMAIN, session, "");
    }
  }

  /** The MAC inputs of a login context, a login token and an authenticated token never coincide. */
  lemma PurposesNeverCoincide(a: string, exp: string, c: string, n: string, x: string, s: string, m: string)
    requires Measured(a) && Measured(exp) && Measured(c) && Measured(n) && Measured(x) && Measured(s) && Measured(m)
    ensures MacInput(CONTEXT_DOMAIN, [a, exp]) != TokenInput(LOGIN_DOMAIN, c, n, x)
    ensures MacInput(CONTEXT_DOMAIN, [a, exp]) != TokenInput(AUTH_DOMAIN, s, m, "")
    ensures TokenInput(LOGIN_DOMAIN, c, n, x) != TokenInput(AUTH_DOMAIN, s, m, "")
  {
    hide MacInput, Measured;
    DomainsDiffer();
    SmallIsMeasured("");
    if MacInput(CONTEXT_DOMAIN, [a, exp]) == TokenInput(LOGIN_DOMAIN, c, n, x) {
      MacInputInjective(CONTEXT_DOMAIN, [a, exp], LOGIN_DOMAIN, [c, n, x]);
    }
    if MacInput(CONTEXT_DOMAIN, [a, exp]) == TokenInput(AUTH_DOMAIN, s, m, "") {
      MacInputInjective(CONTEXT_DOMAIN, [a, exp], AUTH_DOMAIN, [s, m, ""]);
    }
    if TokenInput(LOGIN_DOMAIN, c, n, x) == TokenInput(AUTH_DOMAIN, s, m, "") {
      MacInputInjective(LOGIN_DOMAIN, [c, n, x], AUTH_DOMAIN, [s, m, ""]);
    }
  }
}
