/**
 Instants and their stored text. A timestamp is stored as `datetime.isoformat()` prints it in UTC, and
 SQLite compares that text, so the text's order has to be the instants'.
 */
module Timestamps {
  import opened Text

  const SECOND: int := 1_000_000
  const DAY: int := 86400 * SECOND
  const MAX_YEAR: int := 9999

  datatype DateTime = DateTime(year: int, month: int, day: int, hour: int, minute: int, second: int, micro: int) {
    predicate Valid() {
      && ValidDate(year, month, day)
      && 0 <= hour < 24 && 0 <= minute < 60 && 0 <= second < 60 && 0 <= micro < SECOND
    }
  }

  predicate Leap(y: int) {
    y % 4 == 0 && (y % 100 != 0 || y % 400 == 0)
  }

  function DaysInMonth(y: int, m: int): int {
    if m == 2 then (if Leap(y) then 29 else 28)
    else if m == 4 || m == 6 || m == 9 || m == 11 then 30
    else 31
  }

  /** What `datetime(y, m, d)` accepts. */
  predicate ValidDate(y: int, m: int, d: int) {
    1 <= y <= MAX_YEAR && 1 <= m <= 12 && 1 <= d <= DaysInMonth(y, m)
  }

  function YearLength(y: int): int {
    if Leap(y) then 366 else 365
  }

  function DaysBeforeYear(y: int): int {
    if y <= 1 then 0 else DaysBeforeYear(y - 1) + YearLength(y - 1)
  }

  function DaysBeforeMonth(y: int, m: int): int
    requires 1 <= m <= 13
  {
    if m == 1 then 0 else DaysBeforeMonth(y, m - 1) + DaysInMonth(y, m - 1)
  }

  /** Days from 0001-01-01 to a date. */
  function DayNumber(y: int, m: int, d: int): int
    requires 1 <= m <= 12
  {
    DaysBeforeYear(y) + DaysBeforeMonth(y, m) + d - 1
  }

  /** Microseconds into the day. */
  function TimeOfDay(t: DateTime): int {
    ((t.hour * 60 + t.minute) * 60 + t.second) * SECOND + t.micro
  }

  /** Microseconds since 0001-01-01T00:00. */
  function Instant(t: DateTime): int
    requires t.Valid()
  {
    DayNumber(t.year, t.month, t.day) * DAY + TimeOfDay(t)
  }

  /** One past the last instant a `datetime` can hold. */
  const END: int := DaysBeforeYear(MAX_YEAR + 1) * DAY

  // ---------------------------------------------------------------------------------------------
  // The calendar

  lemma {:induction false} YearsInOrder(y: int, z: int)
    requires 1 <= y < z
    ensures DaysBeforeYear(y) + YearLength(y) <= DaysBeforeYear(z)
    decreases z
  {
    if y < z - 1 {
      YearsInOrder(y, z - 1);
    }
  }

  lemma {:induction false} MonthsInOrder(y: int, m: int, n: int)
    requires 1 <= m < n <= 13
    ensures DaysBeforeMonth(y, m) + DaysInMonth(y, m) <= DaysBeforeMonth(y, n)
    decreases n
  {
    if m < n - 1 {
      MonthsInOrder(y, m, n - 1);
    }
  }

  lemma {:induction false} MonthsFillTheYear(y: int)
    ensures DaysBeforeMonth(y, 13) == YearLength(y)
  {
    assert DaysBeforeMonth(y, 2) == 31;
    assert DaysBeforeMonth(y, 3) == 31 + DaysInMonth(y, 2);
    assert DaysBeforeMonth(y, 5) == DaysBeforeMonth(y, 3) + 61;
    assert DaysBeforeMonth(y, 7) == DaysBeforeMonth(y, 5) + 61;
    assert DaysBeforeMonth(y, 9) == DaysBeforeMonth(y, 7) + 62;
    assert DaysBeforeMonth(y, 11) == DaysBeforeMonth(y, 9) + 61;
  }

  lemma {:induction false} DateInYear(y: int, m: int, d: int)
    requires ValidDate(y, m, d)
    ensures DaysBeforeYear(y) <= DayNumber(y, m, d) < DaysBeforeYear(y + 1)
    ensures 0 <= DaysBeforeYear(y)
  {
    MonthsFillTheYear(y);
    MonthsInOrder(y, m, 13);
    if m > 1 { MonthsInOrder(y, 1, m); }
    if y > 1 { YearsInOrder(1, y); }
  }

  predicate DateLess(a: DateTime, b: DateTime) {
    a.year < b.year || (a.year == b.year && (a.month < b.month || (a.month == b.month && a.day < b.day)))
  }

  lemma {:induction false} DatesInOrder(a: DateTime, b: DateTime)
    requires a.Valid() && b.Valid() && DateLess(a, b)
    ensures DayNumber(a.year, a.month, a.day) < DayNumber(b.year, b.month, b.day)
  {
    if a.year < b.year {
      DateInYear(a.year, a.month, a.day);
      DateInYear(b.year, b.month, b.day);
      YearsInOrder(a.year, b.year);
    } else if a.month < b.month {
      MonthsInOrder(a.year, a.month, b.month);
    }
  }

  lemma {:induction false} TimeOfDayInDay(t: DateTime)
    requires t.Valid()
    ensures 0 <= TimeOfDay(t) < DAY
  {
  }

  /** Field by field, most significant first. */
  predicate Earlier(a: DateTime, b: DateTime) {
    || DateLess(a, b)
    || (a.year == b.year && a.month == b.month && a.day == b.day
        && (a.hour < b.hour || (a.hour == b.hour
        && (a.minute < b.minute || (a.minute == b.minute
        && (a.second < b.second || (a.second == b.second && a.micro < b.micro)))))))
  }

  lemma {:induction false} EarlierFirst(a: DateTime, b: DateTime)
    requires a.Valid() && b.Valid() && Earlier(a, b)
    ensures Instant(a) < Instant(b)
  {
    TimeOfDayInDay(a);
    TimeOfDayInDay(b);
    if DateLess(a, b) {
      DatesInOrder(a, b);
    }
  }

  /** Comparing the fields in order compares the instants. */
  lemma {:induction false} EarlierIsLess(a: DateTime, b: DateTime)
    requires a.Valid() && b.Valid()
    ensures Earlier(a, b) <==> Instant(a) < Instant(b)
    ensures a == b <==> Instant(a) == Instant(b)
  {
    if Earlier(a, b) {
      EarlierFirst(a, b);
    } else if a != b {
      EarlierFirst(b, a);
    }
  }

  lemma {:induction false} Scaled(day: int, time: int, from: int, to: int)
    requires from <= day < to && 0 <= time < DAY
    ensures from * DAY <= day * DAY + time < to * DAY
  {
  }

  /** An instant falls between its year's first day and the next year's. */
  lemma {:induction false} InstantInYear(t: DateTime)
    requires t.Valid()
    ensures 0 <= DaysBeforeYear(t.year) * DAY <= Instant(t) < DaysBeforeYear(t.year + 1) * DAY
  {
    DateInYear(t.year, t.month, t.day);
    TimeOfDayInDay(t);
    Scaled(DayNumber(t.year, t.month, t.day), TimeOfDay(t), DaysBeforeYear(t.year), DaysBeforeYear(t.year + 1));
  }

  lemma {:induction false} InstantInRange(t: DateTime)
    requires t.Valid()
    ensures 0 <= Instant(t) < END
  {
    InstantInYear(t);
    if t.year < MAX_YEAR {
      YearsInOrder(t.year + 1, MAX_YEAR + 1);
    }
  }

  /** The year holding day `n`, counting up from one that starts no later. */
  function YearHolding(n: int, y: int): (r: int)
    requires 1 <= y && DaysBeforeYear(y) <= n
    ensures y <= r && DaysBeforeYear(r) <= n < DaysBeforeYear(r + 1)
    decreases n - DaysBeforeYear(y)
  {
    if n < DaysBeforeYear(y + 1) then y else YearHolding(n, y + 1)
  }

  function MonthHolding(y: int, k: int, m: int): (r: int)
    requires 1 <= m <= 12 && DaysBeforeMonth(y, m) <= k < DaysBeforeMonth(y, 13)
    ensures m <= r <= 12 && DaysBeforeMonth(y, r) <= k < DaysBeforeMonth(y, r) + DaysInMonth(y, r)
    decreases 13 - m
  {
    if k < DaysBeforeMonth(y, m + 1) then m else MonthHolding(y, k, m + 1)
  }

  function DateHolding(n: int): (r: (int, int, int))
    requires 0 <= n < DaysBeforeYear(MAX_YEAR + 1)
    ensures ValidDate(r.0, r.1, r.2) && DayNumber(r.0, r.1, r.2) == n
  {
    assert DaysBeforeYear(1) == 0;
    var y := YearHolding(n, 1);
    assert y <= MAX_YEAR by {
      if y > MAX_YEAR + 1 { YearsInOrder(MAX_YEAR + 1, y); }
    }
    MonthsFillTheYear(y);
    var k := n - DaysBeforeYear(y);
    var m := MonthHolding(y, k, 1);
    (y, m, k - DaysBeforeMonth(y, m) + 1)
  }

  function AtTime(y: int, m: int, d: int, time: int): (t: DateTime)
    requires ValidDate(y, m, d) && 0 <= time < DAY
    ensures t.Valid() && (t.year, t.month, t.day) == (y, m, d) && TimeOfDay(t) == time
  {
    var s := time / SECOND;
    DateTime(y, m, d, s / 3600, s / 60 % 60, s % 60, time % SECOND)
  }

  /** The date and time of an instant: what `+ timedelta` leaves in the fields. */
  function FromInstant(i: int): (t: DateTime)
    requires 0 <= i < END
    ensures t.Valid() && Instant(t) == i
  {
    var date := DateHolding(i / DAY);
    AtTime(date.0, date.1, date.2, i % DAY)
  }

  /** `t + delta`; none stands for the OverflowError of leaving years 1 to 9999. */
  function Plus(t: DateTime, delta: int): (r: Option<DateTime>)
    requires t.Valid()
    ensures r.Some? <==> 0 <= Instant(t) + delta < END
    ensures r.Some? ==> r.value.Valid() && Instant(r.value) == Instant(t) + delta
  {
    var i := Instant(t) + delta;
    if 0 <= i < END then Some(FromInstant(i)) else None
  }

  // ---------------------------------------------------------------------------------------------
  // The text

  /** `n` in `width` digits. */
  function Pad(n: int, width: nat): (s: string)
    requires 0 <= n
    ensures |s| == width
  {
    if width == 0 then "" else Pad(n / 10, width - 1) + [('0' as int + n % 10) as char]
  }

  predicate Fits(n: int, width: nat) {
    0 <= n && if width == 0 then n == 0 else Fits(n / 10, width - 1)
  }

  /** The seconds' fraction, left out when it is zero, and the UTC offset. */
  function Fraction(micro: int): string
    requires 0 <= micro
  {
    if micro == 0 then "+00:00" else "." + (Pad(micro, 6) + "+00:00")
  }

  /** `isoformat()` of a UTC time. */
  function Iso(t: DateTime): string
    requires t.Valid()
  {
    Pad(t.year, 4) + ("-" + (Pad(t.month, 2) + ("-" + (Pad(t.day, 2) + ("T" +
    (Pad(t.hour, 2) + (":" + (Pad(t.minute, 2) + (":" + (Pad(t.second, 2) + Fraction(t.micro)))))))))))
  }

  /** SQLite's order of text: by character, a prefix first. */
  predicate Less(a: string, b: string) {
    b != [] && (a == [] || a[0] < b[0] || (a[0] == b[0] && Less(a[1..], b[1..])))
  }

  predicate AtMost(a: string, b: string) {
    a == b || Less(a, b)
  }

  lemma {:induction false} LessConcat(a: string, b: string, x: string, y: string)
    requires |a| == |b|
    ensures Less(a + x, b + y) <==> Less(a, b) || (a == b && Less(x, y))
  {
    if a == [] {
      assert a + x == x && b + y == y;
    } else {
      LessConcat(a[1..], b[1..], x, y);
      assert (a + x)[1..] == a[1..] + x && (b + y)[1..] == b[1..] + y;
      assert a[0] == b[0] ==> (a == b <==> a[1..] == b[1..]);
    }
  }

  lemma {:induction false} PadOrder(m: int, n: int, width: nat)
    requires Fits(m, width) && Fits(n, width)
    ensures Less(Pad(m, width), Pad(n, width)) <==> m < n
    ensures Pad(m, width) == Pad(n, width) <==> m == n
  {
    if width > 0 {
      PadOrder(m / 10, n / 10, width - 1);
      var a, b := Pad(m / 10, width - 1), Pad(n / 10, width - 1);
      var c, d := [('0' as int + m % 10) as char], [('0' as int + n % 10) as char];
      LessConcat(a, b, c, d);
      assert Less(c, d) <==> m % 10 < n % 10;
      assert (a + c)[..width - 1] == a && (b + d)[..width - 1] == b;
      assert (a + c)[width - 1] == c[0] && (b + d)[width - 1] == d[0];
    }
  }

  lemma {:induction false} FieldOrder(m: int, n: int, width: nat, x: string, y: string)
    requires Fits(m, width) && Fits(n, width)
    ensures Less(Pad(m, width) + x, Pad(n, width) + y) <==> m < n || (m == n && Less(x, y))
  {
    PadOrder(m, n, width);
    LessConcat(Pad(m, width), Pad(n, width), x, y);
  }

  lemma {:induction false} SeparatorOrder(c: char, x: string, y: string)
    ensures Less([c] + x, [c] + y) <==> Less(x, y)
  {
    LessConcat([c], [c], x, y);
    assert !Less([c], [c]);
  }

  /** A missing fraction sorts where a zero one would: '+' is before '.'. */
  lemma {:induction false} FractionOrder(m: int, n: int)
    requires 0 <= m < SECOND && 0 <= n < SECOND
    ensures Less(Fraction(m), Fraction(n)) <==> m < n
  {
    FitsSix(m);
    FitsSix(n);
    if m > 0 && n > 0 {
      var zone := "+00:00";
      SeparatorOrder('.', Pad(m, 6) + zone, Pad(n, 6) + zone);
      FieldOrder(m, n, 6, zone, zone);
      Irreflexive(zone);
    } else if m == 0 && n == 0 {
      Irreflexive("+00:00");
    }
  }

  lemma {:induction false} Irreflexive(s: string)
    ensures !Less(s, s)
  {
    if s != [] {
      Irreflexive(s[1..]);
    }
  }

  lemma {:induction false} FitsTwo(n: int)
    requires 0 <= n < 100
    ensures Fits(n, 2)
  {
    assert Fits(n / 10 / 10, 0);
    assert Fits(n / 10, 1);
  }

  lemma {:induction false} FitsFour(n: int)
    requires 0 <= n < 10000
    ensures Fits(n, 4)
  {
    FitsTwo(n / 10 / 10);
    assert Fits(n / 10, 3);
  }

  lemma {:induction false} FitsSix(n: int)
    requires 0 <= n < 1_000_000
    ensures Fits(n, 6)
  {
    FitsFour(n / 10 / 10);
    assert Fits(n / 10, 5);
  }

  function Clock(t: DateTime): string
    requires t.Valid()
  {
    Pad(t.hour, 2) + (":" + (Pad(t.minute, 2) + (":" + (Pad(t.second, 2) + Fraction(t.micro)))))
  }

  lemma {:induction false} ClockOrder(a: DateTime, b: DateTime)
    requires a.Valid() && b.Valid()
    ensures Less(Clock(a), Clock(b))
       <==> (a.hour < b.hour || (a.hour == b.hour
            && (a.minute < b.minute || (a.minute == b.minute
            && (a.second < b.second || (a.second == b.second && a.micro < b.micro))))))
  {
    FitsTwo(a.hour); FitsTwo(b.hour);
    FitsTwo(a.minute); FitsTwo(b.minute);
    FitsTwo(a.second); FitsTwo(b.second);
    FractionOrder(a.micro, b.micro);
    var s, t := Pad(a.second, 2) + Fraction(a.micro), Pad(b.second, 2) + Fraction(b.micro);
    FieldOrder(a.second, b.second, 2, Fraction(a.micro), Fraction(b.micro));
    SeparatorOrder(':', s, t);
    var m, n := Pad(a.minute, 2) + (":" + s), Pad(b.minute, 2) + (":" + t);
    FieldOrder(a.minute, b.minute, 2, ":" + s, ":" + t);
    SeparatorOrder(':', m, n);
    FieldOrder(a.hour, b.hour, 2, ":" + m, ":" + n);
  }

  lemma {:induction false} IsoLess(a: DateTime, b: DateTime)
    requires a.Valid() && b.Valid()
    ensures Less(Iso(a), Iso(b)) <==> Instant(a) < Instant(b)
  {
    FitsFour(a.year); FitsFour(b.year);
    FitsTwo(a.month); FitsTwo(b.month);
    FitsTwo(a.day); FitsTwo(b.day);
    ClockOrder(a, b);
    SeparatorOrder('T', Clock(a), Clock(b));
    var c, d := Pad(a.day, 2) + ("T" + Clock(a)), Pad(b.day, 2) + ("T" + Clock(b));
    FieldOrder(a.day, b.day, 2, "T" + Clock(a), "T" + Clock(b));
    SeparatorOrder('-', c, d);
    var m, n := Pad(a.month, 2) + ("-" + c), Pad(b.month, 2) + ("-" + d);
    FieldOrder(a.month, b.month, 2, "-" + c, "-" + d);
    SeparatorOrder('-', m, n);
    FieldOrder(a.year, b.year, 4, "-" + m, "-" + n);
    assert Less(Iso(a), Iso(b)) <==> Earlier(a, b);
    EarlierIsLess(a, b);
  }

  /**
   The stored text of two UTC times sorts as the times do, whether or not either has a fraction printed,
   and is the same text only for the same time.
   */
  lemma {:induction false} IsoOrder(a: DateTime, b: DateTime)
    requires a.Valid() && b.Valid()
    ensures Less(Iso(a), Iso(b)) <==> Instant(a) < Instant(b)
    ensures AtMost(Iso(a), Iso(b)) <==> Instant(a) <= Instant(b)
    ensures Iso(a) == Iso(b) <==> a == b
  {
    IsoLess(a, b);
    IsoLess(b, a);
    Irreflexive(Iso(a));
    EarlierIsLess(a, b);
  }
}
