/**
 UTC timestamps as text: Go's time.RFC3339Nano layout (section 5.6 of RFC 3339), which trims
 trailing zeros of the fraction, and the byte order of the texts that result (section 5.1).
 */
module Rfc3339 {
  import opened Wrappers
  import opened Text
  import opened Calendar
  import opened Clock

  // ---------- the six fixed-width fields ----------

  const WIDTHS: seq<nat> := [4, 2, 2, 2, 2, 2]
  const MARKS: seq<string> := ["-", "-", "T", ":", ":", ""]
  const PRECISION: nat := 9

  function Seconds(t: Instant): nat { t / SECOND }

  function Nanos(t: Instant): (n: nat)
    ensures n < SECOND
  {
    t % SECOND
  }

  /** Year, month, day, hour, minute and second of second c of a day. */
  function DayFields(day: nat, c: nat): (f: seq<nat>)
    ensures |f| == 6
  {
    var date := DateOf(day);
    [date.year, date.month, date.day, c / 3600, c / 60 % 60, c % 60]
  }

  function Fields(t: Instant): (f: seq<nat>)
    ensures |f| == 6
  {
    DayFields(Seconds(t) / DAY_SECONDS, Seconds(t) % DAY_SECONDS)
  }

  function Render(f: seq<nat>, widths: seq<nat>, marks: seq<string>): string
    requires |f| == |widths| == |marks|
  {
    if |f| == 0 then ""
    else Fixed(f[0], widths[0]) + (marks[0] + Render(f[1..], widths[1..], marks[1..]))
  }

  function ParseFields(s: string, widths: seq<nat>, marks: seq<string>): (f: Option<seq<nat>>)
    requires |widths| == |marks|
    ensures f.Some? ==> |f.value| == |widths|
  {
    if |widths| == 0 then if s == "" then Some([]) else None
    else
      var w, m := widths[0], marks[0];
      if |s| < w || !AllDigits(s[..w]) || !(m <= s[w..]) then None
      else
        var rest := ParseFields(s[w + |m|..], widths[1..], marks[1..]);
        if rest.None? then None else Some([Value(s[..w])] + rest.value)
  }

  ghost predicate Fit(f: seq<nat>, widths: seq<nat>) {
    |f| == |widths| && forall i | 0 <= i < |f| :: f[i] < Pow10(widths[i])
  }

  lemma Slices(a: string, b: string, c: string)
    ensures (a + (b + c))[..|a|] == a && (a + (b + c))[|a|..] == b + c && (a + (b + c))[|a| + |b|..] == c
    ensures b <= b + c
  {
  }

  /** One field in front of the rest. */
  lemma ParseHead(a: string, r: string, widths: seq<nat>, marks: seq<string>)
    requires |widths| == |marks| > 0 && |a| == widths[0] && AllDigits(a)
    ensures
      var rest := ParseFields(r, widths[1..], marks[1..]);
      ParseFields(a + (marks[0] + r), widths, marks) == if rest.None? then None else Some([Value(a)] + rest.value)
  {
    hide Value;
    Slices(a, marks[0], r);
    assert |a + (marks[0] + r)| >= widths[0];
    hide AllDigits;
  }

  lemma {:induction false} ParseRender(f: seq<nat>, widths: seq<nat>, marks: seq<string>)
    requires Fit(f, widths) && |widths| == |marks|
    ensures ParseFields(Render(f, widths, marks), widths, marks) == Some(f)
  {
    if |f| > 0 {
      hide Pow10, Fixed, ParseFields, Value;
      ParseRender(f[1..], widths[1..], marks[1..]);
      FixedValue(f[0], widths[0]);
      ParseHead(Fixed(f[0], widths[0]), Render(f[1..], widths[1..], marks[1..]), widths, marks);
      assert f == [f[0]] + f[1..];
    }
  }

  predicate TupleLess(f: seq<nat>, g: seq<nat>)
    requires |f| == |g|
  {
    |f| > 0 && (f[0] < g[0] || (f[0] == g[0] && TupleLess(f[1..], g[1..])))
  }

  /** A first field and its mark, in front of tails whose order is known. */
  lemma HeadOrder(n: nat, m: nat, w: nat, mark: string, x: string, y: string)
    requires n < Pow10(w) && m < Pow10(w)
    ensures LexLess(Fixed(n, w) + (mark + x), Fixed(m, w) + (mark + y)) <==> n < m || (n == m && LexLess(x, y))
  {
    FixedOrder(n, m, w);
    if n == m {
      LexSamePrefix(Fixed(n, w), mark + x, mark + y);
      LexSamePrefix(mark, x, y);
    } else {
      LexEqualLength(Fixed(n, w), Fixed(m, w), mark + x, mark + y);
    }
  }

  lemma Associate(p: string, m: string, r: string, a: string)
    ensures (p + (m + r)) + a == p + (m + (r + a))
  {
  }

  /** Equal-width renderings are ordered as the tuples, then by what follows them. */
  lemma {:induction false} RenderOrder(f: seq<nat>, g: seq<nat>, widths: seq<nat>, marks: seq<string>,
                                       a: string, b: string)
    requires Fit(f, widths) && Fit(g, widths) && |widths| == |marks|
    ensures LexLess(Render(f, widths, marks) + a, Render(g, widths, marks) + b)
      <==> if f == g then LexLess(a, b) else TupleLess(f, g)
  {
    hide Fixed, LexLess, Pow10;
    if |f| == 0 {
      assert "" + a == a && "" + b == b;
    } else {
      var r := Render(f[1..], widths[1..], marks[1..]);
      var s := Render(g[1..], widths[1..], marks[1..]);
      RenderOrder(f[1..], g[1..], widths[1..], marks[1..], a, b);
      Associate(Fixed(f[0], widths[0]), marks[0], r, a);
      Associate(Fixed(g[0], widths[0]), marks[0], s, b);
      HeadOrder(f[0], g[0], widths[0], marks[0], r + a, s + b);
      assert f == [f[0]] + f[1..] && g == [g[0]] + g[1..];
    }
  }

  lemma Powers()
    ensures Pow10(2) == 100 && Pow10(4) == 10000 && Pow10(PRECISION) == SECOND
  {
  }

  lemma FitSix(f: seq<nat>)
    requires |f| == 6 && f[0] < 10000
    requires f[1] < 100 && f[2] < 100 && f[3] < 100 && f[4] < 100 && f[5] < 100
    ensures Fit(f, WIDTHS)
  {
    Powers();
    assert WIDTHS[0] == 4;
    forall i | 1 <= i < 6 ensures f[i] < Pow10(WIDTHS[i]) {
      assert WIDTHS[i] == 2;
    }
  }

  lemma FieldsFit(day: nat, c: nat)
    requires day < LIMIT_DAYS && c < DAY_SECONDS
    ensures Fit(DayFields(day, c), WIDTHS)
  {
    hide DateOf, DayNumber, Fit;
    DateOfDay(day);
    FitSix(DayFields(day, c));
  }

  lemma TupleHead(x: nat, y: nat, f: seq<nat>, g: seq<nat>)
    requires |f| == |g|
    ensures TupleLess([x] + f, [y] + g) <==> x < y || (x == y && TupleLess(f, g))
  {
    assert ([x] + f)[1..] == f && ([y] + g)[1..] == g;
  }

  lemma DateTupleLess(a: Date, b: Date, f: seq<nat>, g: seq<nat>)
    requires |f| == |g| && DateLess(a, b)
    ensures TupleLess([a.year, a.month, a.day] + f, [b.year, b.month, b.day] + g)
  {
    hide TupleLess;
    TupleHead(a.day, b.day, f, g);
    TupleHead(a.month, b.month, [a.day] + f, [b.day] + g);
    TupleHead(a.year, b.year, [a.month] + ([a.day] + f), [b.month] + ([b.day] + g));
    assert [a.year, a.month, a.day] + f == [a.year] + ([a.month] + ([a.day] + f));
    assert [b.year, b.month, b.day] + g == [b.year] + ([b.month] + ([b.day] + g));
  }

  lemma ClockTupleLess(p: seq<nat>, x: nat, y: nat)
    requires x < y
    ensures TupleLess(p + [x / 3600, x / 60 % 60, x % 60], p + [y / 3600, y / 60 % 60, y % 60])
    decreases |p|
  {
    var s, t := p + [x / 3600, x / 60 % 60, x % 60], p + [y / 3600, y / 60 % 60, y % 60];
    if |p| > 0 {
      assert s[1..] == p[1..] + [x / 3600, x / 60 % 60, x % 60];
      assert t[1..] == p[1..] + [y / 3600, y / 60 % 60, y % 60];
      ClockTupleLess(p[1..], x, y);
    } else if x / 3600 == y / 3600 {
      assert s[1..] == [x / 60 % 60, x % 60] && t[1..] == [y / 60 % 60, y % 60];
      assert s[1..][1..] == [x % 60] && t[1..][1..] == [y % 60];
      SplitClock(x, y);
      if x / 60 % 60 == y / 60 % 60 {
        assert TupleLess(s[1..][1..], t[1..][1..]);
      }
    }
  }

  lemma SplitClock(x: nat, y: nat)
    requires x < y && x / 3600 == y / 3600
    ensures x / 60 % 60 < y / 60 % 60 || (x / 60 % 60 == y / 60 % 60 && x % 60 < y % 60)
  {
    assert x / 60 == 60 * (x / 3600) + x / 60 % 60 by { assert x / 60 / 60 == x / 3600; }
    assert y / 60 == 60 * (y / 3600) + y / 60 % 60 by { assert y / 60 / 60 == y / 3600; }
  }

  lemma DatesOrdered(i: nat, j: nat)
    requires i < j < LIMIT_DAYS
    ensures DateLess(DateOf(i), DateOf(j))
  {
    DateOfDay(i);
    DateOfDay(j);
    if DateLess(DateOf(j), DateOf(i)) { DateOrder(DateOf(j), DateOf(i)); }
  }

  /** The fields of a later second are lexicographically greater. */
  lemma FieldsOrder(i: nat, x: nat, j: nat, y: nat)
    requires j < LIMIT_DAYS && (i < j || (i == j && x < y))
    ensures TupleLess(DayFields(i, x), DayFields(j, y))
  {
    hide DateOf;
    var a, b := DateOf(i), DateOf(j);
    var f, g := [x / 3600, x / 60 % 60, x % 60], [y / 3600, y / 60 % 60, y % 60];
    assert DayFields(i, x) == [a.year, a.month, a.day] + f;
    assert DayFields(j, y) == [b.year, b.month, b.day] + g;
    if i < j {
      DatesOrdered(i, j);
      DateTupleLess(a, b, f, g);
    } else {
      ClockTupleLess([a.year, a.month, a.day], x, y);
    }
  }

  lemma {:induction false} TupleIrreflexive(f: seq<nat>)
    ensures !TupleLess(f, f)
  {
    if |f| > 0 { TupleIrreflexive(f[1..]); }
  }

  lemma {:induction false} TupleAsymmetric(f: seq<nat>, g: seq<nat>)
    requires |f| == |g| && TupleLess(f, g)
    ensures !TupleLess(g, f)
  {
    if f[0] == g[0] { TupleAsymmetric(f[1..], g[1..]); }
  }

  // ---------- the fraction ----------

  function Trim(s: string): (r: string)
    ensures r <= s
    ensures r != "" ==> r[|r| - 1] != '0'
  {
    if s != "" && s[|s| - 1] == '0' then Trim(s[..|s| - 1]) else s
  }

  function Zeros(n: nat): (s: string)
    ensures |s| == n && forall c | c in s :: c == '0'
  {
    if n == 0 then "" else "0" + Zeros(n - 1)
  }

  /** The fraction's digits as the layout prints them: nine, less trailing zeros. */
  function Fraction(t: Instant): string { Trim(Fixed(Nanos(t), PRECISION)) }

  function Suffix(fraction: string): string {
    if fraction == "" then "Z" else "." + fraction + "Z"
  }

  /** t.UTC().Format(time.RFC3339Nano) */
  function Format(t: Instant): string {
    Render(Fields(t), WIDTHS, MARKS) + Suffix(Fraction(t))
  }

  /** The first nine digits, zero-padded on the right. */
  function NineDigits(d: string): (r: string)
    requires AllDigits(d)
    ensures |r| == PRECISION && AllDigits(r)
  {
    (d + Zeros(PRECISION))[..PRECISION]
  }

  function ParseSuffix(s: string): Option<nat> {
    if s == "Z" then Some(0)
    else if |s| >= 3 && s[0] == '.' && s[|s| - 1] == 'Z' && AllDigits(s[1..|s| - 1]) then
      Some(Value(NineDigits(s[1..|s| - 1])))
    else None
  }

  /** time.Parse(time.RFC3339Nano, s) on UTC text: field ranges are checked, extra digits dropped. */
  function Parse(s: string): Option<Instant> {
    if |s| < 20 then None
    else
      var f, nanos := ParseFields(s[..19], WIDTHS, MARKS), ParseSuffix(s[19..]);
      if f.None? || nanos.None? then None
      else
        var date := Date(f.value[0], f.value[1], f.value[2]);
        var h, m, sec := f.value[3], f.value[4], f.value[5];
        if !date.Valid() || h >= 24 || m >= 60 || sec >= 60 || nanos.value >= SECOND then None
        else
          DayNumberBound(date);
          Some((DayNumber(date) * DAY_SECONDS + (h * 3600 + m * 60 + sec)) * SECOND + nanos.value)
  }

  lemma {:induction false} RenderLength(f: seq<nat>, widths: seq<nat>, marks: seq<string>)
    requires |f| == |widths| == |marks|
    ensures |Render(f, widths, marks)| == Sum(widths, marks)
  {
    if |f| > 0 { RenderLength(f[1..], widths[1..], marks[1..]); }
  }

  function Sum(widths: seq<nat>, marks: seq<string>): nat
    requires |widths| == |marks|
  {
    if |widths| == 0 then 0 else widths[0] + |marks[0]| + Sum(widths[1..], marks[1..])
  }

  lemma StampLength(f: seq<nat>)
    requires |f| == 6
    ensures |Render(f, WIDTHS, MARKS)| == 19
  {
    RenderLength(f, WIDTHS, MARKS);
    assert Sum(WIDTHS, MARKS) == 19;
  }

  lemma {:induction false} TrimPads(s: string)
    ensures s == Trim(s) + Zeros(|s| - |Trim(s)|)
  {
    if s != "" && s[|s| - 1] == '0' {
      var p := s[..|s| - 1];
      TrimPads(p);
      ZerosAppend(|p| - |Trim(p)|);
      assert s == p + "0";
    } else {
      assert s == s + Zeros(0);
    }
  }

  lemma {:induction false} ZerosAppend(n: nat)
    ensures Zeros(n) + "0" == Zeros(n + 1)
  {
    if n > 0 { ZerosAppend(n - 1); assert Zeros(n) + "0" == "0" + (Zeros(n - 1) + "0"); }
  }

  lemma {:induction false} ZerosPrefix(n: nat, m: nat)
    requires n <= m
    ensures Zeros(n) == Zeros(m)[..n]
  {
    if n > 0 { ZerosPrefix(n - 1, m - 1); assert Zeros(m)[..n] == "0" + Zeros(m - 1)[..n - 1]; }
  }

  /** The kept digits, padded back to nine, are the full fraction. */
  lemma FractionPads(t: Instant)
    ensures |Fraction(t)| <= PRECISION && AllDigits(Fraction(t))
    ensures NineDigits(Fraction(t)) == Fixed(Nanos(t), PRECISION)
  {
    var full, kept := Fixed(Nanos(t), PRECISION), Fraction(t);
    TrimPads(full);
    ZerosPrefix(PRECISION - |kept|, PRECISION);
    assert (kept + Zeros(PRECISION))[..PRECISION] == kept + Zeros(PRECISION)[..PRECISION - |kept|];
  }

  lemma SuffixRoundTrip(t: Instant)
    ensures ParseSuffix(Suffix(Fraction(t))) == Some(Nanos(t))
  {
    var kept := Fraction(t);
    FractionPads(t);
    Powers();
    FixedValue(Nanos(t), PRECISION);
    if kept == "" {
      assert NineDigits("") == Zeros(PRECISION);
      ZeroValue(PRECISION);
    } else {
      SuffixDigits(kept);
    }
  }

  lemma SuffixDigits(kept: string)
    requires kept != "" && AllDigits(kept)
    ensures ParseSuffix(Suffix(kept)) == Some(Value(NineDigits(kept)))
  {
    var s := Suffix(kept);
    assert |s| >= 3 && s[0] == '.' && s[|s| - 1] == 'Z';
    assert s[1..|s| - 1] == kept;
  }

  lemma {:induction false} ZeroValue(n: nat)
    ensures Value(Zeros(n)) == 0
  {
    if n > 0 {
      ZerosAppend(n - 1);
      ZeroValue(n - 1);
      assert Zeros(n)[..n - 1] == Zeros(n - 1);
    }
  }

  lemma ClockFields(c: nat)
    requires c < DAY_SECONDS
    ensures c / 3600 < 24 && c / 60 % 60 < 60 && c % 60 < 60
    ensures c / 3600 * 3600 + c / 60 % 60 * 60 + c % 60 == c
  {
    assert c / 60 / 60 == c / 3600;
  }

  /** Text made of the right fields and a readable fraction parses to the instant they name. */
  lemma ParseParts(stamp: string, suffix: string, date: Date, h: nat, m: nat, sec: nat, nanos: nat)
    requires |stamp| == 19 && suffix != ""
    requires ParseFields(stamp, WIDTHS, MARKS) == Some([date.year, date.month, date.day, h, m, sec])
    requires ParseSuffix(suffix) == Some(nanos) && nanos < SECOND
    requires date.Valid() && h < 24 && m < 60 && sec < 60
    ensures Parse(stamp + suffix) == Some((DayNumber(date) * DAY_SECONDS + (h * 3600 + m * 60 + sec)) * SECOND + nanos)
  {
    hide DayNumber, ParseFields, ParseSuffix, Date.Valid;
    var s := stamp + suffix;
    assert s[..19] == stamp && s[19..] == suffix;
  }

  /** The text of second c of a day, with fraction text, parses to the instant it names. */
  lemma ParseDayText(day: nat, c: nat, suffix: string, nanos: nat)
    requires day < LIMIT_DAYS && c < DAY_SECONDS && nanos < SECOND
    requires suffix != "" && ParseSuffix(suffix) == Some(nanos)
    ensures Parse(Render(DayFields(day, c), WIDTHS, MARKS) + suffix) == Some((day * DAY_SECONDS + c) * SECOND + nanos)
  {
    hide DateOf, DayNumber, Fixed, Date.Valid, ParseSuffix;
    var f, date := DayFields(day, c), DateOf(day);
    DateOfDay(day);
    FieldsFit(day, c);
    ParseRender(f, WIDTHS, MARKS);
    StampLength(f);
    ClockFields(c);
    ParseParts(Render(f, WIDTHS, MARKS), suffix, date, c / 3600, c / 60 % 60, c % 60, nanos);
  }

  lemma SplitInstant(t: Instant)
    ensures Seconds(t) / DAY_SECONDS < LIMIT_DAYS && Seconds(t) % DAY_SECONDS < DAY_SECONDS
    ensures (Seconds(t) / DAY_SECONDS * DAY_SECONDS + Seconds(t) % DAY_SECONDS) * SECOND + Nanos(t) == t
  {
  }

  /** Formatting an instant and parsing the text gives the instant back. */
  lemma ParseFormat(t: Instant)
    ensures Parse(Format(t)) == Some(t)
  {
    hide DayFields, ParseSuffix, Parse, Fraction;
    SplitInstant(t);
    SuffixRoundTrip(t);
    ParseDayText(Seconds(t) / DAY_SECONDS, Seconds(t) % DAY_SECONDS, Suffix(Fraction(t)), Nanos(t));
  }

  // ---------- the layout, spelled out ----------

  function Stamp(date: Date, h: nat, m: nat, sec: nat): string {
    Fixed(date.year, 4) + "-" + Fixed(date.month, 2) + "-" + Fixed(date.day, 2) + "T"
    + Fixed(h, 2) + ":" + Fixed(m, 2) + ":" + Fixed(sec, 2)
  }

  /** YYYY-MM-DDTHH:MM:SS, a fraction if it has digits, and Z. */
  predicate Layout(s: string, date: Date, h: nat, m: nat, sec: nat, fraction: string) {
    s == Stamp(date, h, m, sec) + (if fraction == "" then "Z" else "." + fraction + "Z")
  }

  lemma RenderIsStamp(date: Date, h: nat, m: nat, sec: nat)
    ensures Render([date.year, date.month, date.day, h, m, sec], WIDTHS, MARKS) == Stamp(date, h, m, sec)
  {
    hide Fixed;
    var f := [date.year, date.month, date.day, h, m, sec];
    RenderStep(f, WIDTHS, MARKS);
    RenderStep(f[1..], WIDTHS[1..], MARKS[1..]);
    RenderStep(f[2..], WIDTHS[2..], MARKS[2..]);
    RenderStep(f[3..], WIDTHS[3..], MARKS[3..]);
    RenderStep(f[4..], WIDTHS[4..], MARKS[4..]);
    RenderStep(f[5..], WIDTHS[5..], MARKS[5..]);
    hide Render;
    assert f[6..] == [];
    Flatten(Fixed(f[0], 4), Fixed(f[1], 2), Fixed(f[2], 2), Fixed(f[3], 2), Fixed(f[4], 2), Fixed(f[5], 2));
  }

  lemma RenderStep(f: seq<nat>, widths: seq<nat>, marks: seq<string>)
    requires |f| == |widths| == |marks| > 0
    ensures Render(f, widths, marks) == Fixed(f[0], widths[0]) + (marks[0] + Render(f[1..], widths[1..], marks[1..]))
    ensures |f| == 1 ==> Render(f[1..], widths[1..], marks[1..]) == ""
  {
  }

  lemma Flatten(a: string, b: string, c: string, d: string, e: string, f: string)
    ensures a + ("-" + (b + ("-" + (c + ("T" + (d + (":" + (e + (":" + (f + ("" + "")))))))))))
      == a + "-" + b + "-" + c + "T" + d + ":" + e + ":" + f
  {
  }

  /** Every printed instant, character for character: its date, time of day and trimmed nanoseconds. */
  lemma FormatLayout(t: Instant)
    ensures
      var c := t / SECOND % 86_400;
      exists date: Date, fraction ::
        && date.Valid() && MarchCount(date.year, date.month, date.day) == t / SECOND / 86_400
        && Layout(Format(t), date, c / 3600, c / 60 % 60, c % 60, fraction)
        && |fraction| <= 9 && fraction + Zeros(9 - |fraction|) == Fixed(t % SECOND, 9)
        && (fraction != "" ==> fraction[|fraction| - 1] != '0')
  {
    hide Fixed, DateOf, DayNumber, Date.Valid, Trim, Zeros, Render;
    var c, date := t / SECOND % 86_400, DateOf(t / SECOND / 86_400);
    SplitInstant(t);
    DateOfDay(t / SECOND / 86_400);
    DayNumberIsMarchCount(date);
    RenderIsStamp(date, c / 3600, c / 60 % 60, c % 60);
    FractionTrimmed(t);
    assert Layout(Format(t), date, c / 3600, c / 60 % 60, c % 60, Fraction(t));
  }

  lemma FractionTrimmed(t: Instant)
    ensures |Fraction(t)| <= 9 && Fraction(t) + Zeros(9 - |Fraction(t)|) == Fixed(t % SECOND, 9)
  {
    TrimPads(Fixed(Nanos(t), PRECISION));
  }

  lemma {:induction false} FixedOfValue(s: string)
    requires AllDigits(s)
    ensures Fixed(Value(s), |s|) == s
  {
    if s != "" {
      var p, c := s[..|s| - 1], s[|s| - 1];
      assert IsDigit(c);
      FixedOfValue(p);
      assert Value(s) / 10 == Value(p) && Value(s) % 10 == c as int - '0' as int;
      assert s == p + [c];
    }
  }

  lemma Resplit(s: string, w: nat, m: string)
    requires w <= |s| && m <= s[w..]
    ensures w + |m| <= |s| && s == s[..w] + (m + s[w + |m|..])
  {
    assert s[w..] == m + s[w..][|m|..] && s[w..][|m|..] == s[w + |m|..];
  }

  lemma ParseFieldsStep(s: string, widths: seq<nat>, marks: seq<string>)
    requires |widths| == |marks| > 0 && ParseFields(s, widths, marks).Some?
    ensures
      var w, m := widths[0], marks[0];
      && |s| >= w + |m| && AllDigits(s[..w]) && s == s[..w] + (m + s[w + |m|..])
      && ParseFields(s[w + |m|..], widths[1..], marks[1..]).Some?
      && ParseFields(s, widths, marks).value
         == [Value(s[..w])] + ParseFields(s[w + |m|..], widths[1..], marks[1..]).value
  {
    hide Value, AllDigits;
    Resplit(s, widths[0], marks[0]);
  }

  /** Fields that parse are rendered back as they were. */
  lemma {:induction false} RenderParse(s: string, widths: seq<nat>, marks: seq<string>)
    requires |widths| == |marks| && ParseFields(s, widths, marks).Some?
    ensures Render(ParseFields(s, widths, marks).value, widths, marks) == s
  {
    if |widths| > 0 {
      hide Fixed, Value, AllDigits, ParseFields;
      ParseFieldsStep(s, widths, marks);
      var w, m := widths[0], marks[0];
      var f := ParseFields(s, widths, marks).value;
      FixedOfValue(s[..w]);
      RenderParse(s[w + |m|..], widths[1..], marks[1..]);
      assert f[1..] == ParseFields(s[w + |m|..], widths[1..], marks[1..]).value;
    }
  }

  /** The instant that a date, a time of day and fraction digits name; digits past the ninth are dropped. */
  predicate Names(t: int, date: Date, h: nat, m: nat, sec: nat, fraction: string) {
    && date.Valid() && h < 24 && m < 60 && sec < 60 && AllDigits(fraction)
    && t == (MarchCount(date.year, date.month, date.day) * 86_400 + h * 3600 + m * 60 + sec) * SECOND
            + Value(NineDigits(fraction))
  }

  /** Exactly which texts of the layout parse, and to what. */
  lemma ParsesExactly(s: string, t: Instant)
    ensures Parse(s) == Some(t)
      <==> exists date: Date, h, m, sec, fraction ::
        Layout(s, date, h, m, sec, fraction) && Names(t, date, h, m, sec, fraction)
  {
    hide Value, NineDigits, DayNumber, MarchCount, Date.Valid;
    if Parse(s) == Some(t) { ParsedText(s, t); }
    forall date: Date, h: nat, m: nat, sec: nat, fraction
      | Layout(s, date, h, m, sec, fraction) && Names(t, date, h, m, sec, fraction)
      ensures Parse(s) == Some(t)
    {
      LayoutParses(s, t, date, h, m, sec, fraction);
    }
  }

  lemma ParsedText(s: string, t: Instant)
    requires Parse(s) == Some(t)
    ensures exists date: Date, h, m, sec, fraction ::
      Layout(s, date, h, m, sec, fraction) && Names(t, date, h, m, sec, fraction)
  {
    hide Value, NineDigits, DayNumber, MarchCount, Date.Valid, ParseFields, Render;
    var f := ParseFields(s[..19], WIDTHS, MARKS).value;
    var date := Date(f[0], f[1], f[2]);
    var fraction := if s[19..] == "Z" then "" else s[20..|s| - 1];
    RenderParse(s[..19], WIDTHS, MARKS);
    assert f == [date.year, date.month, date.day, f[3], f[4], f[5]];
    RenderIsStamp(date, f[3], f[4], f[5]);
    DayNumberIsMarchCount(date);
    EmptyFraction();
    assert s == s[..19] + s[19..];
    assert s[19..] == if fraction == "" then "Z" else "." + fraction + "Z";
    assert Layout(s, date, f[3], f[4], f[5], fraction);
    assert Names(t, date, f[3], f[4], f[5], fraction);
  }

  lemma EmptyFraction()
    ensures Value(NineDigits("")) == 0
  {
    assert NineDigits("") == Zeros(PRECISION);
    ZeroValue(PRECISION);
  }

  lemma LayoutParses(s: string, t: Instant, date: Date, h: nat, m: nat, sec: nat, fraction: string)
    requires Layout(s, date, h, m, sec, fraction) && Names(t, date, h, m, sec, fraction)
    ensures Parse(s) == Some(t)
  {
    hide Value, DayNumber, MarchCount, Fixed, Parse;
    var f := [date.year, date.month, date.day, h, m, sec];
    FitSix(f);
    ParseRender(f, WIDTHS, MARKS);
    StampLength(f);
    RenderIsStamp(date, h, m, sec);
    DayNumberIsMarchCount(date);
    var suffix := Suffix(fraction);
    if fraction == "" { EmptyFraction(); } else { SuffixDigits(fraction); }
    NanosBound(fraction);
    hide Date.Valid, ParseSuffix, Render;
    ParseParts(Stamp(date, h, m, sec), suffix, date, h, m, sec, Value(NineDigits(fraction)));
  }

  lemma NanosBound(fraction: string)
    requires AllDigits(fraction)
    ensures Value(NineDigits(fraction)) < SECOND
  {
    Powers();
    ValueBound(NineDigits(fraction));
  }

  lemma {:induction false} ValueBound(s: string)
    requires AllDigits(s)
    ensures Value(s) < Pow10(|s|)
  {
    if s != "" {
      assert IsDigit(s[|s| - 1]);
      ValueBound(s[..|s| - 1]);
    }
  }

  // ---------- text order against time order ----------

  /** What SQLite's `a < b` decides on the stored texts. */
  predicate TextBefore(t: Instant, u: Instant) { LexLess(Format(t), Format(u)) }

  /** The two instants share a second and one printed fraction extends the other. */
  predicate Nested(t: Instant, u: Instant) {
    Seconds(t) == Seconds(u) && (Fraction(t) <= Fraction(u) || Fraction(u) <= Fraction(t))
  }

  lemma {:induction false} ZerosLeast(n: nat, s: string)
    requires |s| == n && AllDigits(s) && s != Zeros(n)
    ensures LexLess(Zeros(n), s)
  {
    assert n > 0;
    assert IsDigit(s[0]);
    if s[0] == '0' {
      assert s == "0" + s[1..];
      ZerosLeast(n - 1, s[1..]);
      assert Zeros(n)[1..] == Zeros(n - 1);
    }
  }

  lemma PaddedExtension(f: string, g: string, n: nat)
    requires f < g && |g| <= n && AllDigits(g) && g[|g| - 1] != '0'
    ensures LexLess(f + Zeros(n - |f|), g + Zeros(n - |g|))
  {
    var more := g[|f|..] + Zeros(n - |g|);
    assert f + more == g + Zeros(n - |g|);
    assert more[|g| - |f| - 1] == g[|g| - 1];
    assert more != Zeros(n - |f|) by { assert more[|g| - |f| - 1] in more; }
    ZerosLeast(n - |f|, more);
    LexSamePrefix(f, Zeros(n - |f|), more);
  }

  lemma FractionShape(t: Instant)
    ensures |Fraction(t)| <= PRECISION && AllDigits(Fraction(t))
    ensures Fixed(Nanos(t), PRECISION) == Fraction(t) + Zeros(PRECISION - |Fraction(t)|)
  {
    TrimPads(Fixed(Nanos(t), PRECISION));
  }

  /** A longer fraction that extends a shorter one is the later instant of the second. */
  lemma ExtensionIsLater(t: Instant, u: Instant)
    requires Fraction(t) < Fraction(u)
    ensures Nanos(t) < Nanos(u)
  {
    FractionShape(t);
    FractionShape(u);
    PaddedExtension(Fraction(t), Fraction(u), PRECISION);
    FractionsOrdered(t, u);
  }

  /** ... yet its text is the smaller one, because every digit and the dot precede 'Z'. */
  lemma ExtensionSortsFirst(f: string, g: string)
    requires f < g && AllDigits(g)
    ensures LexLess(Suffix(g), Suffix(f)) && !LexLess(Suffix(f), Suffix(g))
  {
    if f != "" {
      var p := "." + f;
      var rest := g[|f|..] + "Z";
      assert Suffix(f) == p + "Z";
      assert Suffix(g) == p + rest;
      assert rest[0] == g[|f|] && IsDigit(g[|f|]);
      LexSamePrefix(p, "Z", rest);
      LexSamePrefix(p, rest, "Z");
    }
  }

  lemma SuffixOrder(f: string, g: string)
    requires !(f <= g) && !(g <= f)
    ensures LexLess(Suffix(f), Suffix(g)) <==> LexLess(f, g)
  {
    assert Suffix(f) == "." + (f + "Z") && Suffix(g) == "." + (g + "Z");
    LexSamePrefix(".", f + "Z", g + "Z");
    LexDecided(f, g, "Z", "Z");
  }

  lemma PaddedOrder(f: string, g: string, p: string, q: string)
    requires !(f <= g) && !(g <= f) && f <= p && g <= q
    ensures LexLess(p, q) <==> LexLess(f, g)
  {
    assert p == f + p[|f|..] && q == g + q[|g|..];
    LexDecided(f, g, p[|f|..], q[|g|..]);
  }

  /** Fractions that part ways before either ends sort as the numbers they denote. */
  lemma UnrelatedFractions(t: Instant, u: Instant)
    requires !(Fraction(t) <= Fraction(u)) && !(Fraction(u) <= Fraction(t))
    ensures LexLess(Suffix(Fraction(t)), Suffix(Fraction(u))) <==> Nanos(t) < Nanos(u)
  {
    SuffixOrder(Fraction(t), Fraction(u));
    PaddedOrder(Fraction(t), Fraction(u), Fixed(Nanos(t), PRECISION), Fixed(Nanos(u), PRECISION));
    FractionsOrdered(t, u);
  }

  lemma FractionsOrdered(t: Instant, u: Instant)
    ensures LexLess(Fixed(Nanos(t), PRECISION), Fixed(Nanos(u), PRECISION)) <==> Nanos(t) < Nanos(u)
    ensures Fixed(Nanos(t), PRECISION) == Fixed(Nanos(u), PRECISION) <==> Nanos(t) == Nanos(u)
  {
    Powers();
    FixedOrder(Nanos(t), Nanos(u), PRECISION);
  }

  lemma SameFraction(t: Instant, u: Instant)
    requires Fraction(t) == Fraction(u)
    ensures Nanos(t) == Nanos(u)
  {
    FractionPads(t);
    FractionPads(u);
    FractionsOrdered(t, u);
  }

  lemma DayOrder(i: nat, x: nat, j: nat, y: nat, a: string, b: string)
    requires i < LIMIT_DAYS && j < LIMIT_DAYS && x < DAY_SECONDS && y < DAY_SECONDS
    ensures LexLess(Render(DayFields(i, x), WIDTHS, MARKS) + a, Render(DayFields(j, y), WIDTHS, MARKS) + b)
      <==> if i == j && x == y then LexLess(a, b) else i < j || (i == j && x < y)
  {
    var f, g := DayFields(i, x), DayFields(j, y);
    FieldsFit(i, x);
    FieldsFit(j, y);
    RenderOrder(f, g, WIDTHS, MARKS, a, b);
    TupleIrreflexive(f);
    if i < j || (i == j && x < y) {
      FieldsOrder(i, x, j, y);
    } else if j < i || (i == j && y < x) {
      FieldsOrder(j, y, i, x);
      TupleAsymmetric(g, f);
    }
  }

  lemma SecondsDecide(t: Instant, u: Instant)
    ensures TextBefore(t, u) <==>
      if Seconds(t) == Seconds(u) then LexLess(Suffix(Fraction(t)), Suffix(Fraction(u))) else Seconds(t) < Seconds(u)
  {
    SplitInstant(t);
    SplitInstant(u);
    DayOrder(Seconds(t) / DAY_SECONDS, Seconds(t) % DAY_SECONDS, Seconds(u) / DAY_SECONDS, Seconds(u) % DAY_SECONDS,
      Suffix(Fraction(t)), Suffix(Fraction(u)));
    DivModOrder(Seconds(t), Seconds(u));
  }

  lemma DivModOrder(s: nat, u: nat)
    ensures s < u <==>
      s / DAY_SECONDS < u / DAY_SECONDS || (s / DAY_SECONDS == u / DAY_SECONDS && s % DAY_SECONDS < u % DAY_SECONDS)
    ensures s == u <==> s / DAY_SECONDS == u / DAY_SECONDS && s % DAY_SECONDS == u % DAY_SECONDS
  {
  }

  /**
   Exactly when text order is time order: two distinct instants sort in time order unless they
   share a second and one printed fraction extends the other, and then they sort in reverse.
   */
  lemma TextOrder(t: Instant, u: Instant)
    ensures TextBefore(t, u) <==> t != u && ((t < u) != Nested(t, u))
  {
    SecondsDecide(t, u);
    var f, g := Fraction(t), Fraction(u);
    FractionPads(t);
    FractionPads(u);
    if Seconds(t) == Seconds(u) {
      if f == g {
        SameFraction(t, u);
        LexIrreflexive(Suffix(f));
      } else if f <= g {
        ExtensionIsLater(t, u);
        ExtensionSortsFirst(f, g);
      } else if g <= f {
        ExtensionIsLater(u, t);
        ExtensionSortsFirst(g, f);
      } else {
        UnrelatedFractions(t, u);
      }
    }
  }

  /** Instants a full second apart always sort in time order. */
  lemma OneSecondApart(t: Instant, u: Instant)
    requires t + SECOND <= u
    ensures TextBefore(t, u) && !TextBefore(u, t)
  {
    TextOrder(t, u);
    TextOrder(u, t);
  }

  /** Within a second they need not: half past a second sorts before the second itself. */
  lemma HalfSecondSortsFirst(t: Instant)
    requires Nanos(t) == 0
    ensures t + SECOND / 2 < LIMIT && TextBefore(t + SECOND / 2, t)
  {
    var u := t + SECOND / 2;
    assert Seconds(u) == Seconds(t) && u < LIMIT;
    FractionPads(t);
    ZeroFraction(t);
    TextOrder(u, t);
  }

  lemma ZeroFraction(t: Instant)
    requires Nanos(t) == 0
    ensures Fraction(t) == ""
  {
    FixedZero(PRECISION);
    TrimZeros(PRECISION);
  }

  lemma {:induction false} FixedZero(n: nat)
    ensures Fixed(0, n) == Zeros(n)
  {
    if n > 0 { FixedZero(n - 1); ZerosAppend(n - 1); }
  }

  lemma {:induction false} TrimZeros(n: nat)
    ensures Trim(Zeros(n)) == ""
  {
    if n > 0 { ZerosAppend(n - 1); TrimZeros(n - 1); assert Zeros(n)[..n - 1] == Zeros(n - 1); }
  }
}
