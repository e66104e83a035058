/**
 When a card was posted, and whether a stored post and a card are two sightings of one post.
 */
module Sightings {
  import opened Numbers
  import opened Text
  import opened Timestamps
  import opened PostIdentity

  const HOUR: int := 3600

  datatype Unit = Second | Minute | Hour | Day | Week {
    function Seconds(): int {
      match this
      case Second => 1
      case Minute => 60
      case Hour => 3600
      case Day => 86400
      case Week => 604800
    }
  }

  /** A posting time as shown. `month` is none when the month's name isn't one. */
  datatype Label =
    | Yesterday
    | Ago(count: nat, unit: Unit)
    | OnDate(month: Option<int>, day: int, year: Option<int>)
    | Unknown

  /** `Overflow` is the OverflowError of leaving years 1 to 9999. */
  datatype Parsed = At(time: DateTime, precision: int) | NotATime | Overflow

  function Back(now: DateTime, seconds: int, precision: int): Parsed
    requires now.Valid()
  {
    match Plus(now, -seconds * SECOND)
    case Some(t) => At(t, precision)
    case None => Overflow
  }

  function Midnight(year: int, month: int, day: int): DateTime {
    DateTime(year, month, day, 0, 0, 0, 0)
  }

  predicate ValidLabelDate(l: Label) {
    l.OnDate? ==> l.month.Some? ==> 1 <= l.month.value <= 12
  }

  /** The instant a shown time stands for, and how precisely: `now` in UTC, dates as days in a zone
      `offset` microseconds ahead of it. */
  function ParsePostedAt(shown: Label, now: DateTime, offset: int): (r: Parsed)
    requires now.Valid() && ValidLabelDate(shown)
    ensures r.At? ==> r.time.Valid()
  {
    match shown
    case Yesterday => Back(now, 86400, 86400)
    case Ago(n, unit) => Back(now, n * unit.Seconds(), unit.Seconds())
    case Unknown => NotATime
    case OnDate(None, _, _) => NotATime
    case OnDate(Some(month), day, Some(year)) => OnDay(year, month, day, offset)
    case OnDate(Some(month), day, None) =>
      match Plus(now, offset)
      case None => Overflow
      case Some(local) =>
        if !ValidDate(local.year, month, day) then NotATime
        else if Instant(Midnight(local.year, month, day)) - offset > Instant(now) then
          OnDay(local.year - 1, month, day, offset)  // not yet this year: assume the past
        else OnDay(local.year, month, day, offset)
  }

  function OnDay(year: int, month: int, day: int, offset: int): (r: Parsed)
    ensures r.At? ==> r.time.Valid()
  {
    if !ValidDate(year, month, day) then NotATime
    else
      match Plus(Midnight(year, month, day), -offset)
      case Some(t) => At(t, 86400)
      case None => Overflow
  }

  /** How far apart two sightings' times may be, in seconds. */
  function Tolerance(precision: Option<int>): int {
    Max(if precision.Some? then precision.value else 0, HOUR)
  }

  /** What a stored post or a fresh card is compared by. */
  datatype Identity = Identity(username: string, caption: Option<string>, postedAt: Option<DateTime>) {
    predicate Valid() {
      postedAt.Some? ==> postedAt.value.Valid()
    }

    function Caption(): string {
      if caption.Some? then caption.value else ""
    }
  }

  /** A stored post and a card whose time is known to `precision` seconds are one post seen twice. */
  predicate SamePost(existing: Identity, card: Identity, precision: Option<int>)
    requires existing.Valid() && card.Valid()
  {
    && existing.username == card.username
    && existing.postedAt.Some? && card.postedAt.Some?
    && Abs(Instant(existing.postedAt.value) - Instant(card.postedAt.value)) <= Tolerance(precision) * SECOND
    && (IsWeak(existing.Caption()) || IsWeak(card.Caption())
        || Truncate(existing.Caption(), 200) == Truncate(card.Caption(), 200))
  }

  /** Two texts agree as far as their first 200 characters. */
  predicate AgreeAtFirst(a: string, b: string) {
    (|a| == |b| || (|a| >= 200 && |b| >= 200)) && forall i | 0 <= i < 200 && i < |a| && i < |b| :: a[i] == b[i]
  }

  /** What being one post comes to: one author, times both known and an hour apart at most, or as far as the time shown
      can be off, and captions that agree at first unless one is none or a placeholder. */
  lemma {:induction false} SamePostMeans(existing: Identity, card: Identity, precision: Option<int>)
    requires existing.Valid() && card.Valid()
    ensures SamePost(existing, card, precision) <==>
            && existing.username == card.username && existing.postedAt.Some? && card.postedAt.Some?
            && (var apart := Instant(existing.postedAt.value) - Instant(card.postedAt.value);
                var most := SECOND * (if precision.Some? && precision.value > 3600 then precision.value else 3600);
                -most <= apart <= most)
            && (existing.caption.None? || card.caption.None?
                || IsWeak(existing.caption.value) || IsWeak(card.caption.value)
                || AgreeAtFirst(existing.caption.value, card.caption.value))
  {
    NoneIsWeak();
    if existing.caption.Some? && card.caption.Some? {
      TruncatedAgree(existing.caption.value, card.caption.value);
    }
    hide IsWeak, Truncate, Instant, AgreeAtFirst;
  }

  lemma {:induction false} NoneIsWeak()
    ensures IsWeak("")
  {
  }

  lemma {:induction false} TruncatedAgree(a: string, b: string)
    ensures Truncate(a, 200) == Truncate(b, 200) <==> AgreeAtFirst(a, b)
  {
    var x, y := Truncate(a, 200), Truncate(b, 200);
    assert forall i | 0 <= i < |x| :: x[i] == a[i];
    assert forall i | 0 <= i < |y| :: y[i] == b[i];
    if AgreeAtFirst(a, b) {
      assert |x| == |y| && forall i | 0 <= i < |x| :: x[i] == y[i];
    }
  }

  /** Midnight starts the day. */
  lemma {:induction false} MidnightStartsTheDay(year: int, month: int, day: int)
    requires ValidDate(year, month, day)
    ensures Instant(Midnight(year, month, day)) == DayNumber(year, month, day) * DAY
  {
    hide DayNumber;
  }

  // ---------------------------------------------------------------------------------------------

  lemma {:induction false} DaysBeforeMonthAgree(y: int, z: int, m: int)
    requires 1 <= m <= 13
    ensures -1 <= DaysBeforeMonth(y, m) - DaysBeforeMonth(z, m) <= 1
    ensures m <= 2 ==> DaysBeforeMonth(y, m) == DaysBeforeMonth(z, m)
    ensures m > 2 ==> DaysBeforeMonth(y, m) - DaysBeforeMonth(z, m) == YearLength(y) - YearLength(z)
    decreases m
  {
    if m > 1 {
      DaysBeforeMonthAgree(y, z, m - 1);
    }
  }

  /** Seconds to the units: an hour is sixty minutes, and so on. */
  lemma {:induction false} UnitsBuildUp()
    ensures Second.Seconds() == 1 && Minute.Seconds() == 60 && Hour.Seconds() == 60 * Minute.Seconds()
    ensures Day.Seconds() == 24 * Hour.Seconds() && Week.Seconds() == 7 * Day.Seconds()
  {
  }

  /**
   What a shown time is read as, in instants. "Yesterday" is a day ago, an age that long ago; a date is its midnight in
   the device's zone, this year's if that is over and last year's otherwise when it has no year. What is no time or no
   date is not read.
   */
  lemma {:induction false} WhatIsRead(shown: Label, now: DateTime, offset: int)
    requires now.Valid() && ValidLabelDate(shown)
    ensures var r := ParsePostedAt(shown, now, offset);
            match shown
            case Yesterday => IsAt(r, Instant(now) - DAY, 86400)
            case Ago(n, unit) => IsAt(r, Instant(now) - n * unit.Seconds() * SECOND, unit.Seconds())
            case Unknown => r.NotATime?
            case OnDate(None, _, _) => r.NotATime?
            case OnDate(Some(m), d, Some(y)) => IsMidnight(r, y, m, d, offset)
            case OnDate(Some(m), d, None) =>
              match Plus(now, offset)
              case None => r.Overflow?
              case Some(local) =>
                if !ValidDate(local.year, m, d) then r.NotATime?
                else if Instant(Midnight(local.year, m, d)) <= Instant(now) + offset then
                  IsMidnight(r, local.year, m, d, offset)
                else IsMidnight(r, local.year - 1, m, d, offset)
  {
  }

  /** Read as an instant, unless that is past the years there are. */
  predicate IsAt(r: Parsed, instant: int, precision: int)
    requires r.At? ==> r.time.Valid()
  {
    if 0 <= instant < END then r.At? && Instant(r.time) == instant && r.precision == precision else r.Overflow?
  }

  predicate IsMidnight(r: Parsed, year: int, month: int, day: int, offset: int)
    requires 1 <= month <= 12 && (r.At? ==> r.time.Valid())
  {
    if !ValidDate(year, month, day) then r.NotATime?
    else IsAt(r, Instant(Midnight(year, month, day)) - offset, 86400)
  }

  /** The same day a year earlier is at most 366 days earlier. */
  lemma {:induction false} YearBack(y: int, m: int, d: int)
    requires ValidDate(y, m, d) && ValidDate(y - 1, m, d)
    ensures 365 <= DayNumber(y, m, d) - DayNumber(y - 1, m, d) <= 366
  {
    DaysBeforeMonthAgree(y, y - 1, m);
    assert !(Leap(y) && Leap(y - 1));
  }

  /**
   A date shown without its year is read as the latest one it can be: not after now, and less than 366 days
   before it, in whatever fixed-offset zone the device is. Otherwise it isn't read at all: a day that
   doesn't exist, or "February 29" with the last year not a leap year.
   */
  lemma {:induction false} YearlessDateIsRecent(month: Option<int>, day: int, now: DateTime, offset: int)
    requires now.Valid() && ValidLabelDate(OnDate(month, day, None)) && -DAY < offset < DAY
    ensures var r := ParsePostedAt(OnDate(month, day, None), now, offset);
            r.At? ==> Instant(now) - 366 * DAY < Instant(r.time) <= Instant(now) && r.precision == 86400
    ensures var r := ParsePostedAt(OnDate(month, day, None), now, offset);
            r.Overflow? ==> Instant(now) < 367 * DAY || Instant(now) >= END - DAY
  {
    if month.Some? && Plus(now, offset).Some? {
      var local := Plus(now, offset).value;
      InstantInRange(now);
      if ValidDate(local.year, month.value, day) {
        MidnightIsRecent(local, month.value, day);
      }
    }
  }

  /** This year's midnight of a date is less than 366 days before a local time, unless it is still to come;
      last year's then is. */
  lemma {:induction false} MidnightIsRecent(local: DateTime, m: int, d: int)
    requires local.Valid() && ValidDate(local.year, m, d)
    ensures var here := Instant(Midnight(local.year, m, d));
            && Instant(local) - 366 * DAY < here
            && (ValidDate(local.year - 1, m, d) ==>
                  var last := Instant(Midnight(local.year - 1, m, d));
                  last <= Instant(local) && here - 366 * DAY <= last)
  {
    var y := local.year;
    InstantInYear(local);
    DateInYear(y, m, d);
    YearIsShort(y);
    hide DaysBeforeYear, DaysBeforeMonth, TimeOfDay, DaysInMonth, Leap;
    if ValidDate(y - 1, m, d) {
      DateInYear(y - 1, m, d);
      YearBack(y, m, d);
    }
  }

  lemma {:induction false} YearIsShort(y: int)
    requires 1 <= y
    ensures DaysBeforeYear(y + 1) <= DaysBeforeYear(y) + 366
  {
  }

  /** A relative label is the whole units of the post's age. */
  ghost predicate Shows(l: Label, posted: int, now: DateTime)
    requires now.Valid()
  {
    l.Ago? && posted <= Instant(now) && l.count == (Instant(now) - posted) / (l.unit.Seconds() * SECOND)
  }

  /** Reading a label back overshoots the true time by less than the label's unit. */
  lemma {:induction false} LabelError(l: Label, posted: int, now: DateTime, offset: int)
    requires now.Valid() && 0 <= posted && Shows(l, posted, now)
    ensures var r := ParsePostedAt(l, now, offset);
            r.At? && r.precision == l.unit.Seconds()
            && posted <= Instant(r.time) < posted + l.unit.Seconds() * SECOND
  {
    var u := l.unit.Seconds() * SECOND;
    var age := Instant(now) - posted;
    assert age == age / u * u + age % u;
    InstantInRange(now);
    assert l.count * l.unit.Seconds() * SECOND == l.count * u;
  }

  /**
   However a post's age is shown on two occasions, as long as the later label is no finer than the earlier
   one, the two times read from them are within the later one's precision, so the card is recognised as
   the stored post whenever the captions agree or one is a placeholder.
   */
  lemma {:induction false} ResightingIsRecognised(user: string, caption1: Option<string>, caption2: Option<string>,
                                                  posted: int, l1: Label, now1: DateTime, l2: Label, now2: DateTime,
                                                  offset: int)
    requires now1.Valid() && now2.Valid() && 0 <= posted
    requires Shows(l1, posted, now1) && Shows(l2, posted, now2)
    requires l1.unit.Seconds() <= l2.unit.Seconds()
    ensures var r1, r2 := ParsePostedAt(l1, now1, offset), ParsePostedAt(l2, now2, offset);
            var stored := Identity(user, caption1, if r1.At? then Some(r1.time) else None);
            var card := Identity(user, caption2, if r2.At? then Some(r2.time) else None);
            r1.At? && r2.At?
            && Abs(Instant(r1.time) - Instant(r2.time)) < r2.precision * SECOND
            && (SamePost(stored, card, Some(r2.precision))
                <==> IsWeak(stored.Caption()) || IsWeak(card.Caption())
                     || Truncate(stored.Caption(), 200) == Truncate(card.Caption(), 200))
  {
    LabelError(l1, posted, now1, offset);
    LabelError(l2, posted, now2, offset);
  }
}
