/**
 The TEXT timestamps of the database: the fixed-width layout, the civil calendar it prints,
 byte order of the texts against order of the instants, and parsing back.
 */
module SqliteTime {
  import opened Prelude

  // ---- The calendar ----

  predicate Leap(y: nat) {
    y % 4 == 0 && (y % 100 != 0 || y % 400 == 0)
  }

  function DaysIn(y: nat, m: nat): nat {
    if m == 2 then (if Leap(y) then 29 else 28)
    else if m == 4 || m == 6 || m == 9 || m == 11 then 30 else 31
  }

  function YearDays(y: nat): nat {
    if Leap(y) then 366 else 365
  }

  /** Days from 1 January of year 0 to 1 January of year y. */
  function DaysBeforeYear(y: nat): nat {
    if y == 0 then 0 else DaysBeforeYear(y - 1) + YearDays(y - 1)
  }

  function DaysBeforeMonth(y: nat, m: nat): nat {
    if m <= 1 then 0 else DaysBeforeMonth(y, m - 1) + DaysIn(y, m - 1)
  }

  datatype Date = Date(y: nat, m: nat, d: nat)

  predicate ValidDate(c: Date) {
    1 <= c.m <= 12 && 1 <= c.d <= DaysIn(c.y, c.m)
  }

  function DayNumber(c: Date): nat
    requires ValidDate(c)
  {
    DaysBeforeYear(c.y) + DaysBeforeMonth(c.y, c.m) + c.d - 1
  }

  predicate Earlier(a: Date, b: Date) {
    a.y < b.y || (a.y == b.y && (a.m < b.m || (a.m == b.m && a.d < b.d)))
  }

  lemma AtLeastOneTimes(a: int, k: nat)
    requires a >= 1
    ensures a * k >= k
  {
  }

  lemma Quotient(t: nat, k: nat, q: nat, r: nat)
    requires k > 0 && r < k && t == q * k + r
    ensures t / k == q && t % k == r
  {
    var q' := t / k;
    assert t == q' * k + t % k;
    assert (q - q') * k == t % k - r && (q' - q) * k == r - t % k;
    if q < q' {
      AtLeastOneTimes(q' - q, k);
    } else if q > q' {
      AtLeastOneTimes(q - q', k);
    }
  }

  /** How many of 0, ..., y - 1 are multiples of k. */
  function Multiples(y: nat, k: nat): nat
    requires k > 0
  {
    if y == 0 then 0 else Multiples(y - 1, k) + if (y - 1) % k == 0 then 1 else 0
  }

  lemma {:induction false} MultiplesCounted(k: nat, q: nat, r: nat)
    requires 0 < r <= k
    ensures Multiples(q * k + r, k) == q + 1
  {
    if r > 1 {
      MultiplesCounted(k, q, r - 1);
      Quotient(q * k + r - 1, k, q, r - 1);
    } else {
      Quotient(q * k, k, q, 0);
      if q > 0 {
        MultiplesCounted(k, q - 1, k);
        assert (q - 1) * k + k == q * k;
      }
    }
  }

  lemma Nested(y: nat)
    ensures y % 400 == 0 ==> y % 100 == 0
    ensures y % 100 == 0 ==> y % 4 == 0
  {
    if y % 400 == 0 { Quotient(y, 100, y / 400 * 4, 0); }
    if y % 100 == 0 { Quotient(y, 4, y / 100 * 25, 0); }
  }

  /** A day for every fourth year, but not every hundredth, but every four-hundredth. */
  lemma {:induction false} GregorianRule(y: nat)
    ensures DaysBeforeYear(y) == 365 * y + Multiples(y, 4) - Multiples(y, 100) + Multiples(y, 400)
  {
    if y == 0 {
    } else {
      GregorianRule(y - 1);
      Nested(y - 1);
    }
  }

  lemma YearTenThousand()
    ensures DaysBeforeYear(10_000) == 3_652_425
  {
    GregorianRule(10_000);
    MultiplesCounted(4, 2499, 4);
    MultiplesCounted(100, 99, 100);
    MultiplesCounted(400, 24, 400);
  }

  /** The months fill the year exactly. */
  lemma YearLength(y: nat)
    ensures DaysBeforeYear(y + 1) == DaysBeforeYear(y) + DaysBeforeMonth(y, 13)
  {
    assert DaysBeforeMonth(y, 2) == 31;
    assert DaysBeforeMonth(y, 3) == 31 + DaysIn(y, 2);
    assert DaysBeforeMonth(y, 5) == 92 + DaysIn(y, 2);
    assert DaysBeforeMonth(y, 7) == 153 + DaysIn(y, 2);
    assert DaysBeforeMonth(y, 9) == 215 + DaysIn(y, 2);
    assert DaysBeforeMonth(y, 11) == 276 + DaysIn(y, 2);
  }

  // ---- The calendar by its numbers ----

  const DAYS_BEFORE: seq<nat> := [0, 31, 59, 90, 120, 151, 181, 212, 243, 273, 304, 334]

  const MONTH_DAYS: seq<nat> := [31, 28, 31, 30, 31, 30, 31, 31, 30, 31, 30, 31]

  /** One for a year with a 29 February. */
  function LeapDay(y: nat): nat {
    if y % 400 == 0 then 1 else if y % 100 == 0 then 0 else if y % 4 == 0 then 1 else 0
  }

  lemma MonthsBefore(y: nat, m: nat)
    requires 1 <= m <= 12
    ensures DaysBeforeMonth(y, m) == DAYS_BEFORE[m - 1] + if m > 2 then LeapDay(y) else 0
  {
    Nested(y);
    if m == 1 || m == 2 || m == 3 {
    } else {
      MonthsBefore(y, m - 1);
    }
  }

  lemma MonthLengths(y: nat, m: nat)
    requires 1 <= m <= 12
    ensures DaysIn(y, m) == MONTH_DAYS[m - 1] + if m == 2 then LeapDay(y) else 0
  {
    Nested(y);
  }

  /** Every month has the length and the place in the year that the civil calendar gives it. */
  lemma MonthTable(y: nat, m: nat, d: nat)
    requires 1 <= m <= 12
    ensures DayNumber(Date(y, m, 1)) - DayNumber(Date(y, 1, 1)) == DAYS_BEFORE[m - 1] + if m > 2 then LeapDay(y) else 0
    ensures ValidDate(Date(y, m, d)) <==> 1 <= d <= MONTH_DAYS[m - 1] + if m == 2 then LeapDay(y) else 0
    ensures ValidDate(Date(y, m, d)) ==> DayNumber(Date(y, m, d)) == DayNumber(Date(y, m, 1)) + d - 1
  {
    MonthLengths(y, m);
    MonthsBefore(y, m);
    MonthsBefore(y, 1);
  }

  /** The Unix epoch lies 719,528 days after the origin of the count, which is 1 January of year 0. */
  lemma UnixEpoch()
    ensures DayNumber(Date(1970, 1, 1)) == 719_528 && DayNumber(Date(0, 1, 1)) == 0
  {
    GregorianRule(1970);
    MultiplesCounted(4, 492, 2);
    MultiplesCounted(100, 19, 70);
    MultiplesCounted(400, 4, 370);
  }

  lemma {:induction false} MonthsGrow(y: nat, m: nat, k: nat)
    requires 1 <= m < k
    ensures DaysBeforeMonth(y, m) + DaysIn(y, m) <= DaysBeforeMonth(y, k)
  {
    if m + 1 == k {
    } else {
      MonthsGrow(y, m, k - 1);
    }
  }

  lemma {:induction false} YearsGrow(y: nat, z: nat)
    requires y < z
    ensures DaysBeforeYear(y + 1) <= DaysBeforeYear(z)
  {
    if y + 1 == z {
    } else {
      YearsGrow(y, z - 1);
    }
  }

  /** Day numbers follow the calendar order, so they identify the date. */
  lemma DayNumberOrder(a: Date, b: Date)
    requires ValidDate(a) && ValidDate(b)
    ensures Earlier(a, b) ==> DayNumber(a) < DayNumber(b)
    ensures DayNumber(a) == DayNumber(b) ==> a == b
  {
    if Earlier(a, b) { EarlierIsSmaller(a, b); }
    if Earlier(b, a) { EarlierIsSmaller(b, a); }
  }

  lemma EarlierIsSmaller(a: Date, b: Date)
    requires ValidDate(a) && ValidDate(b) && Earlier(a, b)
    ensures DayNumber(a) < DayNumber(b)
  {
    if a.y < b.y {
      YearsGrow(a.y, b.y);
      YearLength(a.y);
      MonthsGrow(a.y, a.m, 13);
    } else if a.m < b.m {
      MonthsGrow(a.y, a.m, b.m);
    }
  }

  function NextDay(c: Date): (r: Date)
    requires ValidDate(c)
    ensures ValidDate(r) && Earlier(c, r)
  {
    if c.d < DaysIn(c.y, c.m) then c.(d := c.d + 1)
    else if c.m < 12 then Date(c.y, c.m + 1, 1)
    else Date(c.y + 1, 1, 1)
  }

  lemma NextDayNumber(c: Date)
    requires ValidDate(c)
    ensures DayNumber(NextDay(c)) == DayNumber(c) + 1
  {
    if c.m == 12 { YearLength(c.y); }
  }

  /** The date of a day number: the inverse of DayNumber. */
  function DateOf(n: nat): (c: Date)
    ensures ValidDate(c) && DayNumber(c) == n
  {
    if n == 0 then Date(0, 1, 1)
    else
      var before := DateOf(n - 1);
      NextDayNumber(before);
      NextDay(before)
  }

  // ---- Fixed-width fields ----

  function Pow10(w: nat): (r: nat)
    ensures r > 0
  {
    if w == 0 then 1 else 10 * Pow10(w - 1)
  }

  function Digits(n: nat, w: nat): (s: string)
    ensures |s| == w
  {
    if w == 0 then [] else Digits(n / 10, w - 1) + [('0' as int + n % 10) as char]
  }

  predicate AllDigits(s: string) {
    forall i | 0 <= i < |s| :: '0' <= s[i] <= '9'
  }

  function Value(s: string): nat
    requires AllDigits(s)
  {
    if s == [] then 0 else 10 * Value(s[..|s| - 1]) + (s[|s| - 1] as int - '0' as int)
  }

  lemma {:induction false} DigitsValue(n: nat, w: nat)
    requires n < Pow10(w)
    ensures AllDigits(Digits(n, w)) && Value(Digits(n, w)) == n
  {
    if w == 0 {
    } else {
      DigitsValue(n / 10, w - 1);
      var s := Digits(n, w);
      assert s[..w - 1] == Digits(n / 10, w - 1);
    }
  }

  lemma {:induction false} ValueDigits(s: string)
    requires AllDigits(s)
    ensures Value(s) < Pow10(|s|) && Digits(Value(s), |s|) == s
  {
    if s == [] {
    } else {
      ValueDigits(s[..|s| - 1]);
      var c := s[|s| - 1];
      assert Value(s) % 10 == c as int - '0' as int;
      assert s == s[..|s| - 1] + [c];
    }
  }

  /** SQLite's BINARY collation. */
  predicate Less(a: string, b: string) {
    b != [] && (a == [] || a[0] < b[0] || (a[0] == b[0] && Less(a[1..], b[1..])))
  }

  lemma {:induction false} LessConcat(a: string, b: string, x: string, y: string)
    requires |a| == |b|
    ensures Less(a + x, b + y) <==> Less(a, b) || (a == b && Less(x, y))
  {
    if a == [] {
      assert a + x == x && b + y == y;
    } else {
      LessConcat(a[1..], b[1..], x, y);
      assert (a + x)[1..] == a[1..] + x && (b + y)[1..] == b[1..] + y;
      assert a == [a[0]] + a[1..] && b == [b[0]] + b[1..];
    }
  }

  lemma {:induction false} DigitsOrder(m: nat, n: nat, w: nat)
    requires m < Pow10(w) && n < Pow10(w)
    ensures Less(Digits(m, w), Digits(n, w)) <==> m < n
    ensures Digits(m, w) == Digits(n, w) <==> m == n
  {
    DigitsValue(m, w);
    DigitsValue(n, w);
    if w == 0 {
    } else {
      DigitsOrder(m / 10, n / 10, w - 1);
      var c, d := ('0' as int + m % 10) as char, ('0' as int + n % 10) as char;
      LessConcat(Digits(m / 10, w - 1), Digits(n / 10, w - 1), [c], [d]);
      assert Less([c], [d]) <==> c < d;
    }
  }

  /** A layout: for each field its width and the character that follows it. */
  type Layout = seq<(nat, char)>

  predicate Fits(vals: seq<nat>, l: Layout) {
    |vals| == |l| && forall i | 0 <= i < |l| :: vals[i] < Pow10(l[i].0)
  }

  function RenderFields(vals: seq<nat>, l: Layout): string
    requires |vals| == |l|
  {
    if l == [] then [] else Digits(vals[0], l[0].0) + ([l[0].1] + RenderFields(vals[1..], l[1..]))
  }

  function ParseFields(s: string, l: Layout): Option<seq<nat>> {
    if l == [] then (if s == [] then Some([]) else None)
    else
      var w := l[0].0;
      if |s| <= w || !AllDigits(s[..w]) || s[w] != l[0].1 then None
      else
        var rest := ParseFields(s[w + 1..], l[1..]);
        if rest.None? then None else Some([Value(s[..w])] + rest.value)
  }

  predicate LexLess(a: seq<nat>, b: seq<nat>) {
    b != [] && (a == [] || a[0] < b[0] || (a[0] == b[0] && LexLess(a[1..], b[1..])))
  }

  lemma {:induction false} FieldsOrder(a: seq<nat>, b: seq<nat>, l: Layout)
    requires Fits(a, l) && Fits(b, l)
    ensures Less(RenderFields(a, l), RenderFields(b, l)) <==> LexLess(a, b)
  {
    if l == [] {
    } else {
      FieldsOrder(a[1..], b[1..], l[1..]);
      DigitsOrder(a[0], b[0], l[0].0);
      var x, y, sep := RenderFields(a[1..], l[1..]), RenderFields(b[1..], l[1..]), [l[0].1];
      LessConcat(Digits(a[0], l[0].0), Digits(b[0], l[0].0), sep + x, sep + y);
      LessConcat(sep, sep, x, y);
      assert !Less(sep, sep);
    }
  }

  lemma {:induction false} ParseRenderFields(vals: seq<nat>, l: Layout)
    requires Fits(vals, l)
    ensures ParseFields(RenderFields(vals, l), l) == Some(vals)
  {
    if l == [] {
    } else {
      var w := l[0].0;
      ParseRenderFields(vals[1..], l[1..]);
      DigitsValue(vals[0], w);
      var s := RenderFields(vals, l);
      assert s[..w] == Digits(vals[0], w);
      assert s[w + 1..] == RenderFields(vals[1..], l[1..]);
      assert vals == [vals[0]] + vals[1..];
    }
  }

  lemma FitsOneMore(v: nat, vals: seq<nat>, l: Layout)
    requires l != [] && v < Pow10(l[0].0) && Fits(vals, l[1..])
    ensures Fits([v] + vals, l)
  {
    var all := [v] + vals;
    forall i | 0 <= i < |l| ensures all[i] < Pow10(l[i].0) {
      if i > 0 { assert all[i] == vals[i - 1] && l[i] == l[1..][i - 1]; }
    }
  }

  lemma {:induction false} RenderParseFields(s: string, l: Layout)
    requires ParseFields(s, l).Some?
    ensures Fits(ParseFields(s, l).value, l)
    ensures RenderFields(ParseFields(s, l).value, l) == s
  {
    if l == [] {
    } else {
      var w := l[0].0;
      RenderParseFields(s[w + 1..], l[1..]);
      ValueDigits(s[..w]);
      var v, rest := Value(s[..w]), ParseFields(s[w + 1..], l[1..]).value;
      FitsOneMore(v, rest, l);
      assert ([v] + rest)[1..] == rest;
      assert s == s[..w] + ([l[0].1] + s[w + 1..]);
    }
  }

  // ---- Instants ----

  const SECOND: nat := 1_000_000_000

  /** 10000-01-01T00:00:00Z, the first instant whose year needs a fifth digit. */
  const LIMIT: nat := 315_569_520_000_000_000_000

  /** Instants count nanoseconds from 0000-01-01T00:00:00Z; the layout holds years 0 to 9999. */
  predicate InRange(t: Time) {
    0 <= t < LIMIT
  }

  type Instant = t: Time | 0 <= t < LIMIT witness 0

  /** "2006-01-02T15:04:05.000000000Z" in Go's notation. */
  const SQLITE_LAYOUT: Layout := [(4, '-'), (2, '-'), (2, 'T'), (2, ':'), (2, ':'), (2, '.'), (9, 'Z')]

  function DateFields(n: nat): seq<nat> {
    var c := DateOf(n);
    [c.y, c.m, c.d]
  }

  function ClockFields(s: nat): seq<nat> {
    [s / 3600, s / 60 % 60, s % 60]
  }

  /** The fields of an instant given in whole seconds. */
  function SecondFields(s: nat): seq<nat> {
    DateFields(s / 86_400) + ClockFields(s % 86_400)
  }

  function Seconds(t: Instant): (s: nat)
    ensures s < 315_569_520_000
  {
    t / SECOND
  }

  function Nanos(t: Instant): (n: nat)
    ensures n < SECOND && t == Seconds(t) * SECOND + n
  {
    t % SECOND
  }

  function Fields(t: Instant): seq<nat> {
    SecondFields(Seconds(t)) + [Nanos(t)]
  }

  function Render(t: Instant): string {
    RenderFields(Fields(t), SQLITE_LAYOUT)
  }

  function Compose(day: nat, h: nat, m: nat, s: nat, ns: nat): nat {
    (day * 86_400 + (h * 3600 + m * 60 + s)) * SECOND + ns
  }

  /** The instant named by seven fields, None for 30 February or 25 o'clock. */
  function FromFields(v: seq<nat>): Option<int>
    requires |v| == 7
  {
    if ValidDate(Date(v[0], v[1], v[2])) && v[3] < 24 && v[4] < 60 && v[5] < 60 && v[6] < SECOND
    then Some(Compose(DayNumber(Date(v[0], v[1], v[2])), v[3], v[4], v[5], v[6]))
    else None
  }

  /** time.Parse(sqliteTimeFormat, _) on texts of the full width. */
  function Parse(s: string): Option<int> {
    var v := ParseFields(s, SQLITE_LAYOUT);
    if v.None? || |v.value| != 7 then None else FromFields(v.value)
  }

  lemma DivModOrder(a: nat, b: nat, k: nat)
    requires k > 0
    ensures a < b <==> a / k < b / k || (a / k == b / k && a % k < b % k)
    ensures a == b <==> a / k == b / k && a % k == b % k
  {
    var p, q, r, s := a / k, b / k, a % k, b % k;
    assert a == p * k + r && b == q * k + s;
    assert b - a == (q - p) * k + s - r && a - b == (p - q) * k + r - s;
    if p < q {
      AtLeastOneTimes(q - p, k);
    } else if q < p {
      AtLeastOneTimes(p - q, k);
    }
  }

  lemma {:induction false} LexConcat(a: seq<nat>, b: seq<nat>, x: seq<nat>, y: seq<nat>)
    requires |a| == |b|
    ensures LexLess(a + x, b + y) <==> LexLess(a, b) || (a == b && LexLess(x, y))
  {
    if a == [] {
      assert a + x == x && b + y == y;
    } else {
      LexConcat(a[1..], b[1..], x, y);
      assert (a + x)[1..] == a[1..] + x && (b + y)[1..] == b[1..] + y;
      assert a == [a[0]] + a[1..] && b == [b[0]] + b[1..];
    }
  }

  lemma LexOfThree(a: seq<nat>, b: seq<nat>)
    requires |a| == |b| == 3
    ensures LexLess(a, b) <==>
              a[0] < b[0] || (a[0] == b[0] && (a[1] < b[1] || (a[1] == b[1] && a[2] < b[2])))
  {
    assert a[1..][1..] == [a[2]] && b[1..][1..] == [b[2]];
    assert LexLess([a[2]], [b[2]]) <==> a[2] < b[2];
  }

  lemma DateFieldsOrder(m: nat, n: nat)
    ensures LexLess(DateFields(m), DateFields(n)) <==> m < n
    ensures DateFields(m) == DateFields(n) <==> m == n
  {
    DayNumberOrder(DateOf(m), DateOf(n));
    DayNumberOrder(DateOf(n), DateOf(m));
    LexOfThree(DateFields(m), DateFields(n));
  }

  lemma ClockFieldsOrder(s: nat, p: nat)
    ensures LexLess(ClockFields(s), ClockFields(p)) <==> s < p
    ensures ClockFields(s) == ClockFields(p) <==> s == p
  {
    DivModOrder(s, p, 60);
    DivModOrder(s / 60, p / 60, 60);
    LexOfThree(ClockFields(s), ClockFields(p));
    assert s / 3600 == s / 60 / 60 && p / 3600 == p / 60 / 60;
  }

  lemma SecondFieldsOrder(s: nat, p: nat)
    ensures LexLess(SecondFields(s), SecondFields(p)) <==> s < p
    ensures SecondFields(s) == SecondFields(p) <==> s == p
  {
    DivModOrder(s, p, 86_400);
    DateFieldsOrder(s / 86_400, p / 86_400);
    ClockFieldsOrder(s % 86_400, p % 86_400);
    var a, b, x, y := DateFields(s / 86_400), DateFields(p / 86_400), ClockFields(s % 86_400), ClockFields(p % 86_400);
    LexConcat(a, b, x, y);
    assert (a + x)[..3] == a && (b + y)[..3] == b && (a + x)[3..] == x && (b + y)[3..] == y;
  }

  lemma FieldsFollowTime(a: Instant, b: Instant)
    ensures LexLess(Fields(a), Fields(b)) <==> a < b
  {
    SecondFieldsOrder(Seconds(a), Seconds(b));
    LexConcat(SecondFields(Seconds(a)), SecondFields(Seconds(b)), [Nanos(a)], [Nanos(b)]);
    assert LexLess([Nanos(a)], [Nanos(b)]) <==> Nanos(a) < Nanos(b);
  }

  lemma YearFits(n: nat)
    requires n < 3_652_425
    ensures DateOf(n).y < 10_000
  {
    var y := DateOf(n).y;
    YearTenThousand();
    assert DaysBeforeYear(y) <= n;
    if y > 10_000 { YearsGrow(10_000, y); }
  }

  lemma Widths()
    ensures Pow10(2) == 100 && Pow10(4) == 10_000 && Pow10(9) == 1_000_000_000
  {
    assert Pow10(6) == 1_000_000;
  }

  lemma FieldsAre(t: Instant)
    ensures var c, k := DateOf(Seconds(t) / 86_400), Seconds(t) % 86_400;
            Fields(t) == [c.y, c.m, c.d, k / 3600, k / 60 % 60, k % 60, Nanos(t)]
  {
  }

  lemma ClockFits(k: nat)
    requires k < 86_400
    ensures k / 3600 < 24 && k / 60 % 60 < 60 && k % 60 < 60
    ensures k / 3600 * 3600 + k / 60 % 60 * 60 + k % 60 == k
  {
  }

  lemma FieldsFit(t: Instant)
    ensures Fits(Fields(t), SQLITE_LAYOUT)
  {
    YearFits(Seconds(t) / 86_400);
    ClockFits(Seconds(t) % 86_400);
    FieldsAre(t);
    Widths();
  }

  /** Where field i of a layout begins. */
  function Offset(l: Layout, i: nat): nat
    requires i <= |l|
  {
    if i == 0 then 0 else Offset(l, i - 1) + l[i - 1].0 + 1
  }

  lemma {:induction false} OffsetShifts(l: Layout, i: nat)
    requires l != [] && i < |l|
    ensures Offset(l, i + 1) == l[0].0 + 1 + Offset(l[1..], i)
  {
    if i > 0 {
      OffsetShifts(l, i - 1);
      assert l[1..][i - 1] == l[i];
    }
  }

  lemma {:induction false} RenderedLength(vals: seq<nat>, l: Layout)
    requires |vals| == |l|
    ensures |RenderFields(vals, l)| == Offset(l, |l|)
  {
    if l != [] {
      RenderedLength(vals[1..], l[1..]);
      OffsetShifts(l, |l| - 1);
    }
  }

  lemma SliceFurtherIn(head: string, c: char, rest: string, o: nat, w: nat)
    requires o + w < |rest|
    ensures var s, n := head + ([c] + rest), |head| + 1 + o;
            s[n..n + w] == rest[o..o + w] && s[n + w] == rest[o + w]
  {
    var s := head + ([c] + rest);
    assert s[|head| + 1..] == rest;
  }

  /** Each field stands in its place, followed by its character. */
  ghost predicate InPlace(s: string, vals: seq<nat>, l: Layout, i: nat)
    requires |vals| == |l| && i < |l|
  {
    var o, w := Offset(l, i), l[i].0;
    o + w < |s| && s[o..o + w] == Digits(vals[i], w) && s[o + w] == l[i].1
  }

  lemma FirstInPlace(vals: seq<nat>, l: Layout, rest: string)
    requires |vals| == |l| > 0
    ensures InPlace(Digits(vals[0], l[0].0) + ([l[0].1] + rest), vals, l, 0)
  {
    var head := Digits(vals[0], l[0].0);
    assert (head + ([l[0].1] + rest))[..|head|] == head;
  }

  lemma OthersInPlace(vals: seq<nat>, l: Layout, rest: string, i: nat)
    requires |vals| == |l| && 0 < i < |l| && InPlace(rest, vals[1..], l[1..], i - 1)
    ensures InPlace(Digits(vals[0], l[0].0) + ([l[0].1] + rest), vals, l, i)
  {
    OffsetShifts(l, i - 1);
    SliceFurtherIn(Digits(vals[0], l[0].0), l[0].1, rest, Offset(l[1..], i - 1), l[i].0);
  }

  lemma {:induction false} FieldInPlace(vals: seq<nat>, l: Layout, i: nat)
    requires |vals| == |l| && i < |l|
    ensures |RenderFields(vals, l)| == Offset(l, |l|) && InPlace(RenderFields(vals, l), vals, l, i)
  {
    RenderedLength(vals, l);
    var rest := RenderFields(vals[1..], l[1..]);
    if i == 0 {
      FirstInPlace(vals, l, rest);
    } else {
      FieldInPlace(vals[1..], l[1..], i - 1);
      OthersInPlace(vals, l, rest, i);
    }
  }

  lemma Offsets()
    ensures var l := SQLITE_LAYOUT;
            && Offset(l, 0) == 0 && Offset(l, 1) == 5 && Offset(l, 2) == 8 && Offset(l, 3) == 11
            && Offset(l, 4) == 14 && Offset(l, 5) == 17 && Offset(l, 6) == 20 && Offset(l, 7) == 30
  {
    assert Offset(SQLITE_LAYOUT, 2) == 8;
    assert Offset(SQLITE_LAYOUT, 4) == 14;
    assert Offset(SQLITE_LAYOUT, 6) == 20;
  }

  /** Every stored text has 30 characters, with the separators in their places. */
  lemma RenderedShape(t: Instant)
    ensures var s := Render(t);
            && |s| == 30 && s[4] == '-' && s[7] == '-' && s[10] == 'T' && s[13] == ':' && s[16] == ':'
            && s[19] == '.' && s[29] == 'Z'
  {
    Offsets();
    forall i | 0 <= i < 7
      ensures var o := Offset(SQLITE_LAYOUT, i) + SQLITE_LAYOUT[i].0;
              |Render(t)| == 30 && o < 30 && Render(t)[o] == SQLITE_LAYOUT[i].1
    {
      FieldInPlace(Fields(t), SQLITE_LAYOUT, i);
    }
    assert SQLITE_LAYOUT[0] == (4, '-') && SQLITE_LAYOUT[1] == (2, '-') && SQLITE_LAYOUT[2] == (2, 'T');
    assert SQLITE_LAYOUT[3] == (2, ':') && SQLITE_LAYOUT[4] == (2, ':') && SQLITE_LAYOUT[5] == (2, '.');
    assert SQLITE_LAYOUT[6] == (9, 'Z');
  }

  lemma FieldsSpelledOut(t: Instant, v: seq<nat>)
    requires Fields(t) == v && |v| == 7
    ensures var s := Render(t);
            && |s| == 30 && s[0..4] == Digits(v[0], 4) && s[5..7] == Digits(v[1], 2) && s[8..10] == Digits(v[2], 2)
            && s[11..13] == Digits(v[3], 2) && s[14..16] == Digits(v[4], 2) && s[17..19] == Digits(v[5], 2)
            && s[20..29] == Digits(v[6], 9)
  {
    Offsets();
    FieldInPlace(v, SQLITE_LAYOUT, 0);
    FieldInPlace(v, SQLITE_LAYOUT, 1);
    FieldInPlace(v, SQLITE_LAYOUT, 2);
    FieldInPlace(v, SQLITE_LAYOUT, 3);
    FieldInPlace(v, SQLITE_LAYOUT, 4);
    FieldInPlace(v, SQLITE_LAYOUT, 5);
    FieldInPlace(v, SQLITE_LAYOUT, 6);
  }

  /**
   The text of the instant so many seconds and nanoseconds after midnight of a date shows the
   date and the time of day, zero-padded, each number in its place.
   */
  lemma RenderSpelledOut(c: Date, h: nat, m: nat, s: nat, ns: nat, t: Time)
    requires ValidDate(c) && c.y < 10_000 && h < 24 && m < 60 && s < 60 && ns < SECOND
    requires t == Compose(DayNumber(c), h, m, s, ns)
    ensures InRange(t)
    ensures var text := Render(t);
            && |text| == 30 && text[0..4] == Digits(c.y, 4)
            && text[5..7] == Digits(c.m, 2) && text[8..10] == Digits(c.d, 2)
            && text[11..13] == Digits(h, 2) && text[14..16] == Digits(m, 2) && text[17..19] == Digits(s, 2)
            && text[20..29] == Digits(ns, 9)
  {
    var v := [c.y, c.m, c.d, h, m, s, ns];
    assert Date(v[0], v[1], v[2]) == c;
    assert FromFields(v) == Some(t);
    FieldsOfParsed(v);
    FieldsSpelledOut(t, v);
  }

  /** The texts compare as the instants do. */
  lemma TextOrderIsTimeOrder(a: Instant, b: Instant)
    ensures Less(Render(a), Render(b)) <==> a < b
  {
    FieldsFit(a);
    FieldsFit(b);
    FieldsOrder(Fields(a), Fields(b), SQLITE_LAYOUT);
    FieldsFollowTime(a, b);
  }

  lemma ComposeUndoes(t: Instant)
    ensures var k := Seconds(t) % 86_400;
            Compose(Seconds(t) / 86_400, k / 3600, k / 60 % 60, k % 60, Nanos(t)) == t
  {
    ClockFits(Seconds(t) % 86_400);
    assert Seconds(t) == Seconds(t) / 86_400 * 86_400 + Seconds(t) % 86_400;
  }

  lemma FromFieldsUndoes(t: Instant)
    ensures FromFields(Fields(t)) == Some(t)
  {
    FieldsAre(t);
    ClockFits(Seconds(t) % 86_400);
    ComposeUndoes(t);
    var c := DateOf(Seconds(t) / 86_400);
    assert Date(c.y, c.m, c.d) == c;
  }

  /** Reading a stored text gives back the instant, to the nanosecond. */
  lemma ParseUndoesRender(t: Instant)
    ensures Parse(Render(t)) == Some(t)
  {
    FieldsFit(t);
    ParseRenderFields(Fields(t), SQLITE_LAYOUT);
    FromFieldsUndoes(t);
  }

  lemma ComposedParts(n: nat, h: nat, m: nat, s: nat, ns: nat)
    requires n < 3_652_425 && h < 24 && m < 60 && s < 60 && ns < SECOND
    ensures var t := Compose(n, h, m, s, ns);
            && InRange(t) && Seconds(t) / 86_400 == n && Nanos(t) == ns
            && ClockFields(Seconds(t) % 86_400) == [h, m, s]
  {
    var k := h * 3600 + m * 60 + s;
    Quotient((n * 86_400 + k) * SECOND + ns, SECOND, n * 86_400 + k, ns);
    Quotient(n * 86_400 + k, 86_400, n, k);
    Quotient(k, 3600, h, m * 60 + s);
    Quotient(k, 60, h * 60 + m, s);
    Quotient(h * 60 + m, 60, h, m);
  }

  lemma FieldsOfParsed(v: seq<nat>)
    requires |v| == 7 && v[0] < 10_000 && FromFields(v).Some?
    ensures var t := FromFields(v).value; InRange(t) && Fields(t) == v
  {
    var c := Date(v[0], v[1], v[2]);
    EarlierIsSmaller(c, Date(10_000, 1, 1));
    YearTenThousand();
    ComposedParts(DayNumber(c), v[3], v[4], v[5], v[6]);
    DayNumberOrder(DateOf(DayNumber(c)), c);
  }

  /** A text that parses is the rendering of what it parses to: each instant has one text. */
  lemma RenderUndoesParse(s: string)
    requires Parse(s).Some?
    ensures InRange(Parse(s).value) && Render(Parse(s).value) == s
  {
    RenderParseFields(s, SQLITE_LAYOUT);
    Widths();
    FieldsOfParsed(ParseFields(s, SQLITE_LAYOUT).value);
  }
}
