/**
 Byte strings as the program's text layer sees them: splitting and joining on a
 separator, decimal numerals, and the byte-wise order SQLite uses for TEXT columns.
 A Go string is a `string` here, one `char` per byte.
 */
module Text {
  import opened Wrappers

  // ---------- splitting and joining ----------

  /** strings.Split / bytes.Split with a one-byte separator. */
  function Split(s: string, sep: char): (parts: seq<string>)
    ensures |parts| >= 1
    ensures forall p | p in parts :: sep !in p
  {
    if s == "" then [""]
    else
      var rest := Split(s[1..], sep);
      if s[0] == sep then [""] + rest
      else [[s[0]] + rest[0]] + rest[1..]
  }

  /** strings.Join / bytes.Join with a one-byte separator. */
  function Join(parts: seq<string>, sep: char): string {
    if |parts| == 0 then ""
    else if |parts| == 1 then parts[0]
    else parts[0] + [sep] + Join(parts[1..], sep)
  }

  lemma {:induction false} JoinSplit(s: string, sep: char)
    ensures Join(Split(s, sep), sep) == s
  {
    if s == "" {
    } else {
      JoinSplit(s[1..], sep);
      var rest := Split(s[1..], sep);
      if s[0] == sep {
        assert ([""] + rest)[1..] == rest;
        assert s == [s[0]] + s[1..];
      } else {
        var parts := [[s[0]] + rest[0]] + rest[1..];
        assert parts[1..] == rest[1..];
        assert s == [s[0]] + s[1..];
        if |rest| > 1 {
          assert Join(parts, sep) == [s[0]] + (rest[0] + [sep] + Join(rest[1..], sep));
        }
      }
    }
  }

  /** A separator-free first part followed by the separator splits off unchanged. */
  lemma {:induction false} SplitHead(head: string, tail: string, sep: char)
    requires sep !in head
    ensures Split(head, sep) == [head]
    ensures Split(head + [sep] + tail, sep) == [head] + Split(tail, sep)
  {
    var s := head + [sep] + tail;
    if head == "" {
      assert s[1..] == tail;
    } else {
      SplitHead(head[1..], tail, sep);
      assert s[1..] == head[1..] + [sep] + tail;
      assert head == [head[0]] + head[1..];
      assert s[0] == head[0] && head[0] in head;
      var rest := Split(s[1..], sep);
      assert rest[0] == head[1..] && rest[1..] == Split(tail, sep);
    }
  }

  lemma {:induction false} SplitJoin(parts: seq<string>, sep: char)
    requires |parts| >= 1
    requires forall p | p in parts :: sep !in p
    ensures Split(Join(parts, sep), sep) == parts
  {
    if |parts| == 1 {
      SplitHead(parts[0], "", sep);
    } else {
      SplitJoin(parts[1..], sep);
      SplitHead(parts[0], Join(parts[1..], sep), sep);
      assert parts == [parts[0]] + parts[1..];
    }
  }

  // ---------- decimal numerals ----------

  predicate IsDigit(c: char) { '0' <= c <= '9' }

  predicate AllDigits(s: string) { forall c | c in s :: IsDigit(c) }

  function Digit(d: nat): (c: char)
    requires d < 10
    ensures IsDigit(c) && c as int == '0' as int + d
  {
    ('0' as int + d) as char
  }

  function Value(s: string): nat
    requires AllDigits(s)
  {
    if s == "" then 0
    else
      assert IsDigit(s[|s| - 1]);
      10 * Value(s[..|s| - 1]) + (s[|s| - 1] as int - '0' as int)
  }

  /** The canonical decimal numeral, as strconv.FormatInt and fmt's %d print it. */
  function Decimal(n: nat): (s: string)
    ensures |s| >= 1 && AllDigits(s)
  {
    if n < 10 then [Digit(n)] else Decimal(n / 10) + [Digit(n % 10)]
  }

  lemma {:induction false} DecimalValue(n: nat)
    ensures Value(Decimal(n)) == n
  {
    if n < 10 {
      assert [Digit(n)][..0] == "";
    } else {
      DecimalValue(n / 10);
      var s := Decimal(n);
      assert s[..|s| - 1] == Decimal(n / 10);
    }
  }

  /** No numeral but 0 itself starts with a zero. */
  lemma {:induction false} DecimalCanonical(n: nat)
    ensures Decimal(n)[0] == '0' <==> n == 0
    ensures n == 0 ==> Decimal(n) == "0"
  {
    if n >= 10 { DecimalCanonical(n / 10); }
  }

  /** A digit string of this value, leading zeros allowed. */
  predicate Spells(digits: string, n: nat) {
    digits != "" && AllDigits(digits) && Value(digits) == n
  }

  /** strconv.ParseUint(s, 10, bits) where limit is two to the power of bits. */
  function ParseUint(s: string, limit: nat): Option<nat> {
    if s != "" && AllDigits(s) && Value(s) < limit then Some(Value(s)) else None
  }

  const INT64_LIMIT: int := 0x8000_0000_0000_0000

  /** strconv.FormatInt(n, 10). */
  function FormatInt(n: int): string {
    if n < 0 then "-" + Decimal(-n) else Decimal(n)
  }

  /** strconv.ParseInt(s, 10, 64): an optional sign, at least one digit, in range. */
  function ParseInt64(s: string): (r: Option<int>)
    ensures r.Some? ==> -INT64_LIMIT <= r.value < INT64_LIMIT
  {
    var negative := s != "" && s[0] == '-';
    var digits := if s != "" && (s[0] == '-' || s[0] == '+') then s[1..] else s;
    if digits == "" || !AllDigits(digits) then None
    else if negative then
      if Value(digits) <= INT64_LIMIT then Some(0 - Value(digits)) else None
    else
      if Value(digits) < INT64_LIMIT then Some(Value(digits)) else None
  }

  lemma ParseFormatInt(n: int)
    requires -INT64_LIMIT <= n < INT64_LIMIT
    ensures ParseInt64(FormatInt(n)) == Some(n)
  {
    hide Decimal, Value;
    if n < 0 {
      DecimalValue(-n);
      assert FormatInt(n)[1..] == Decimal(-n);
    } else {
      DecimalValue(n);
      assert FormatInt(n)[0] in Decimal(n);
    }
  }

  /** An optional sign and a digit string that name this number. */
  predicate Reads(s: string, sign: string, digits: string, n: int, x: int) {
    && n >= 0 && s == sign + digits && Spells(digits, n)
    && ((sign == "-" && x == -n) || ((sign == "" || sign == "+") && x == n))
  }

  /** Exactly which strings parse, and to what: signed digit strings within 64 bits. */
  lemma ParseInt64Exactly(s: string, x: int)
    ensures ParseInt64(s) == Some(x)
      <==> -0x8000_0000_0000_0000 <= x < 0x8000_0000_0000_0000 && exists sign, digits, n :: Reads(s, sign, digits, n, x)
  {
    hide Value;
    var signed := s != "" && (s[0] == '-' || s[0] == '+');
    var sign, rest := if signed then s[..1] else "", if signed then s[1..] else s;
    if ParseInt64(s) == Some(x) {
      assert s == sign + rest;
      assert Reads(s, sign, rest, Value(rest), x);
    }
    forall g, digits, n | Reads(s, g, digits, n, x) ensures g == sign && digits == rest {
      assert IsDigit(digits[0]);
      assert s == g + digits;
    }
  }

  // ---------- fixed-width numerals ----------

  function Pow10(w: nat): nat {
    if w == 0 then 1 else 10 * Pow10(w - 1)
  }

  /** The low w decimal digits of n, zero-padded on the left. */
  function Fixed(n: nat, w: nat): (s: string)
    ensures |s| == w && AllDigits(s)
  {
    if w == 0 then "" else Fixed(n / 10, w - 1) + [Digit(n % 10)]
  }

  lemma {:induction false} FixedValue(n: nat, w: nat)
    requires n < Pow10(w)
    ensures Value(Fixed(n, w)) == n
  {
    if w > 0 {
      FixedValue(n / 10, w - 1);
      assert Fixed(n, w)[..w - 1] == Fixed(n / 10, w - 1);
    }
  }

  // ---------- byte-wise order ----------

  /** memcmp order: the first differing byte decides, a proper prefix comes first. */
  predicate LexLess(a: string, b: string) {
    b != "" && (a == "" || a[0] < b[0] || (a[0] == b[0] && LexLess(a[1..], b[1..])))
  }

  lemma {:induction false} LexSamePrefix(p: string, a: string, b: string)
    ensures LexLess(p + a, p + b) <==> LexLess(a, b)
  {
    if p == "" {
      assert p + a == a && p + b == b;
    } else {
      LexSamePrefix(p[1..], a, b);
      assert (p + a)[1..] == p[1..] + a && (p + b)[1..] == p[1..] + b;
    }
  }

  /** When neither string is a prefix of the other, what follows them is irrelevant. */
  lemma {:induction false} LexDecided(p: string, q: string, a: string, b: string)
    requires !(p <= q) && !(q <= p)
    ensures LexLess(p + a, q + b) <==> LexLess(p, q)
  {
    if p[0] == q[0] {
      assert p == [p[0]] + p[1..] && q == [q[0]] + q[1..];
      LexDecided(p[1..], q[1..], a, b);
      assert (p + a)[1..] == p[1..] + a && (q + b)[1..] == q[1..] + b;
    }
  }

  lemma {:induction false} LexIrreflexive(a: string)
    ensures !LexLess(a, a)
  {
    if a != "" { LexIrreflexive(a[1..]); }
  }

  /** Strings of equal length differ somewhere, so neither is a prefix of the other. */
  lemma LexEqualLength(p: string, q: string, a: string, b: string)
    requires |p| == |q| && p != q
    ensures LexLess(p + a, q + b) <==> LexLess(p, q)
  {
    LexDecided(p, q, a, b);
  }

  /** Zero-padded numerals of one width are ordered as the numbers they denote. */
  lemma {:induction false} FixedOrder(n: nat, m: nat, w: nat)
    requires n < Pow10(w) && m < Pow10(w)
    ensures LexLess(Fixed(n, w), Fixed(m, w)) <==> n < m
    ensures Fixed(n, w) == Fixed(m, w) <==> n == m
  {
    if w > 0 {
      FixedOrder(n / 10, m / 10, w - 1);
      var p, q := Fixed(n / 10, w - 1), Fixed(m / 10, w - 1);
      var x, y := [Digit(n % 10)], [Digit(m % 10)];
      assert (p + x)[..w - 1] == p && (q + y)[..w - 1] == q;
      if n / 10 == m / 10 {
        LexSamePrefix(p, x, y);
        assert (p + x)[w - 1] == x[0] && (q + y)[w - 1] == y[0];
      } else {
        LexEqualLength(p, q, x, y);
      }
    }
  }
}
