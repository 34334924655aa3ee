/**
 The proleptic Gregorian calendar of years 0 to 9999, as a strictly monotone map from day
 numbers (day 0 is 0000-01-01) to year, month and day. Times are instants in nanoseconds.
 */
module Calendar {
  import opened Clock

  const DAY_SECONDS: int := 86_400
  const LIMIT_DAYS: int := 3_652_425
  const LIMIT: int := LIMIT_DAYS * DAY_SECONDS * SECOND

  /** Nanoseconds since 0000-01-01T00:00:00Z, up to the end of year 9999. */
  type Instant = t: int | 0 <= t < LIMIT

  predicate Leap(y: nat) { y % 4 == 0 && (y % 100 != 0 || y % 400 == 0) }

  function DaysInYear(y: nat): nat { if Leap(y) then 366 else 365 }

  function DaysInMonth(y: nat, m: nat): (d: nat)
    ensures 28 <= d <= 31
  {
    if m == 2 then (if Leap(y) then 29 else 28)
    else if m == 4 || m == 6 || m == 9 || m == 11 then 30
    else 31
  }

  /** Days before the first of January of year y. */
  function YearStart(y: nat): nat {
    365 * y + (y + 3) / 4 - (y + 99) / 100 + (y + 399) / 400
  }

  /** Days of year y before the first of month m. */
  function MonthStart(y: nat, m: nat): nat {
    if m <= 1 then 0 else MonthStart(y, m - 1) + DaysInMonth(y, m - 1)
  }

  /** Rounding y up to a multiple of k moves on exactly when y is one. */
  lemma CeilingStep(y: nat, k: nat)
    requires k > 0
    ensures (y + k) / k == (y + k - 1) / k + (if y % k == 0 then 1 else 0)
  {
    var q, r := y / k, y % k;
    assert y == k * q + r;
    if r == 0 {
      assert (y + k) / k == q + 1 by { Quotient(y + k, k, q + 1, 0); }
      assert (y + k - 1) / k == q by { Quotient(y + k - 1, k, q, k - 1); }
    } else {
      assert (y + k) / k == q + 1 by { Quotient(y + k, k, q + 1, r); }
      assert (y + k - 1) / k == q + 1 by { Quotient(y + k - 1, k, q + 1, r - 1); }
    }
  }

  lemma SmallMultiple(k: int, d: int)
    requires -k < k * d < k
    ensures d == 0
  {
  }

  lemma Quotient(n: nat, k: nat, q: nat, r: nat)
    requires r < k && n == k * q + r
    ensures n / k == q && n % k == r
  {
    var d := n / k - q;
    assert n == k * (n / k) + n % k;
    assert k * d == r - n % k;
    SmallMultiple(k, d);
  }

  lemma DivisibilityChain(y: nat)
    ensures y % 400 == 0 ==> y % 100 == 0
    ensures y % 100 == 0 ==> y % 4 == 0
  {
    if y % 400 == 0 { Quotient(y, 100, 4 * (y / 400), 0); }
    if y % 100 == 0 { Quotient(y, 4, 25 * (y / 100), 0); }
  }

  lemma YearStartStep(y: nat)
    ensures YearStart(y + 1) == YearStart(y) + DaysInYear(y)
  {
    CeilingStep(y, 4);
    CeilingStep(y, 100);
    CeilingStep(y, 400);
    DivisibilityChain(y);
  }

  lemma YearLength(y: nat)
    ensures MonthStart(y, 13) == DaysInYear(y)
  {
    var february := DaysInMonth(y, 2);
    assert MonthStart(y, 2) == 31;
    assert MonthStart(y, 3) == 31 + february;
    assert MonthStart(y, 4) == 62 + february;
    assert MonthStart(y, 5) == 92 + february;
    assert MonthStart(y, 6) == 123 + february;
    assert MonthStart(y, 7) == 153 + february;
    assert MonthStart(y, 8) == 184 + february;
    assert MonthStart(y, 9) == 215 + february;
    assert MonthStart(y, 10) == 245 + february;
    assert MonthStart(y, 11) == 276 + february;
    assert MonthStart(y, 12) == 306 + february;
  }

  datatype Date = Date(year: nat, month: nat, day: nat) {
    predicate Valid() {
      year < 10000 && 1 <= month <= 12 && 1 <= day <= DaysInMonth(year, month)
    }
  }

  function DayNumber(d: Date): int {
    YearStart(d.year) + MonthStart(d.year, d.month) + d.day - 1
  }

  /** The year, at or after y, holding the day that is n days after y's first of January. */
  function FindYear(n: nat, y: nat): (r: (nat, nat))
    ensures r.1 < DaysInYear(r.0)
    ensures r.0 >= y && YearStart(r.0) + r.1 == YearStart(y) + n
    decreases n
  {
    if n < DaysInYear(y) then (y, n)
    else YearStartStep(y); FindYear(n - DaysInYear(y), y + 1)
  }

  /** The month, at or after m, holding the day that is n days after m's first. */
  function FindMonth(n: nat, y: nat, m: nat): (r: (nat, nat))
    requires 1 <= m
    ensures r.0 >= m && r.1 < DaysInMonth(y, r.0)
    ensures MonthStart(y, r.0) + r.1 == MonthStart(y, m) + n
    decreases n
  {
    if n < DaysInMonth(y, m) then (m, n)
    else FindMonth(n - DaysInMonth(y, m), y, m + 1)
  }

  function DateOf(day: nat): Date {
    var (y, n) := FindYear(day, 0);
    var (m, k) := FindMonth(n, y, 1);
    Date(y, m, k + 1)
  }

  lemma {:induction false} YearStartMonotone(y: nat, z: nat)
    requires y <= z
    ensures YearStart(y) + 365 * (z - y) <= YearStart(z)
    decreases z - y
  {
    if y < z {
      YearStartStep(y);
      YearStartMonotone(y + 1, z);
    }
  }

  lemma {:induction false} MonthStartMonotone(y: nat, m: nat, n: nat)
    requires 1 <= m <= n
    ensures MonthStart(y, m) <= MonthStart(y, n)
    decreases n - m
  {
    if m < n { MonthStartMonotone(y, m + 1, n); }
  }

  /** Every day number below the limit is a valid date with that day number. */
  lemma DateOfDay(day: nat)
    requires day < LIMIT_DAYS
    ensures DateOf(day).Valid() && DayNumber(DateOf(day)) == day
  {
    var (y, n) := FindYear(day, 0);
    if y >= 10000 { YearStartMonotone(10000, y); }
    var (m, k) := FindMonth(n, y, 1);
    YearLength(y);
    if m >= 13 { MonthStartMonotone(y, 13, m); }
  }

  /** Lexicographic order on dates. */
  predicate DateLess(a: Date, b: Date) {
    a.year < b.year || (a.year == b.year && (a.month < b.month || (a.month == b.month && a.day < b.day)))
  }

  lemma MonthFits(y: nat, m: nat, d: nat)
    requires 1 <= m <= 12 && 1 <= d <= DaysInMonth(y, m)
    ensures MonthStart(y, m) + d - 1 < DaysInYear(y)
  {
    YearLength(y);
    MonthStartMonotone(y, m + 1, 13);
  }

  /** Valid dates compare field by field exactly as their day numbers do. */
  lemma DateOrder(a: Date, b: Date)
    requires a.Valid() && b.Valid()
    ensures DateLess(a, b) <==> DayNumber(a) < DayNumber(b)
  {
    hide DayNumber, Date.Valid;
    if DateLess(a, b) {
      EarlierDate(a, b);
    } else if DateLess(b, a) {
      EarlierDate(b, a);
    } else {
      assert a == b;
    }
  }

  /** Earlier dates have smaller day numbers. */
  lemma EarlierDate(a: Date, b: Date)
    requires a.Valid() && b.Valid() && DateLess(a, b)
    ensures DayNumber(a) < DayNumber(b)
  {
    if a.year < b.year {
      MonthFits(a.year, a.month, a.day);
      YearStartStep(a.year);
      YearStartMonotone(a.year + 1, b.year);
    } else if a.month < b.month {
      MonthStartMonotone(a.year, a.month + 1, b.month);
    }
  }

  lemma DayNumberBound(d: Date)
    requires d.Valid()
    ensures 0 <= DayNumber(d) < LIMIT_DAYS
  {
    MonthFits(d.year, d.month, d.day);
    YearStartStep(d.year);
    YearStartMonotone(d.year + 1, 10000);
  }

  // ---------- an independent day count ----------

  /** Month starts without the table of month lengths. */
  lemma MonthStartFormula(y: nat, m: nat)
    requires 1 <= m <= 12
    ensures MonthStart(y, m) == (367 * m - 362) / 12 - (if m <= 2 then 0 else if Leap(y) then 1 else 2)
  {
    YearLength(y);
    if m <= 4 { MonthStarts(y); } else if m <= 8 { MonthStarts(y); } else { MonthStarts(y); }
  }

  lemma MonthStarts(y: nat)
    ensures var leap := if Leap(y) then 1 else 0;
      && MonthStart(y, 1) == 0 && MonthStart(y, 2) == 31 && MonthStart(y, 3) == 59 + leap
      && MonthStart(y, 4) == 90 + leap && MonthStart(y, 5) == 120 + leap && MonthStart(y, 6) == 151 + leap
      && MonthStart(y, 7) == 181 + leap && MonthStart(y, 8) == 212 + leap && MonthStart(y, 9) == 243 + leap
      && MonthStart(y, 10) == 273 + leap && MonthStart(y, 11) == 304 + leap && MonthStart(y, 12) == 334 + leap
  {
  }

  /**
   Day numbers counted from years that begin in March, so that the leap day comes last: whole years
   with their leap days, then months of 153 days in fives, then the day. Day 0 is 0000-01-01.
   */
  function MarchCount(year: int, month: int, day: int): int {
    var y := if month <= 2 then year - 1 else year;
    var m := if month <= 2 then month + 9 else month - 3;
    365 * y + y / 4 - y / 100 + y / 400 + (153 * m + 2) / 5 + day + 59
  }

  /** Ceilings as floors, one unit down. */
  lemma CeilingIsFloor(y: nat, k: nat)
    requires k > 0
    ensures (y + k - 1) / k == (y - 1) / k + 1
    ensures y / k == (y - 1) / k + (if y % k == 0 then 1 else 0)
  {
    var q, r := (y - 1) / k, (y - 1) % k;
    assert y - 1 == k * q + r;
    assert k * (q + 1) >= 0;
    Quotient(y + k - 1, k, q + 1, r);
    if r == k - 1 { Quotient(y, k, q + 1, 0); } else { Quotient(y, k, q, r + 1); }
  }

  /** Days before year y, by the leap years before it; one more with y's own. */
  lemma LeapCount(y: nat)
    ensures YearStart(y) == 365 * y + 1 + (y - 1) / 4 - (y - 1) / 100 + (y - 1) / 400
    ensures YearStart(y) + (if Leap(y) then 1 else 0) == 365 * y + 1 + y / 4 - y / 100 + y / 400
  {
    CeilingIsFloor(y, 4);
    CeilingIsFloor(y, 100);
    CeilingIsFloor(y, 400);
    DivisibilityChain(y);
  }

  lemma DayNumberIsMarchCount(d: Date)
    requires d.Valid()
    ensures DayNumber(d) == MarchCount(d.year, d.month, d.day)
  {
    LeapCount(d.year);
    MonthStarts(d.year);
    hide YearStart, MonthStart, Leap;
  }
}
