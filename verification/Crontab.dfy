/** How the scheduler's days differ from those of crontab, where either of two restricted day fields may match. */
module Crontab {
  import opened Calendar
  import opened Cron

  /** With a day of the month and a day of the week both given, any day that matches one of them. */
  predicate EitherDay(t: int, c: Parsed) {
    if c.dayOfMonth.Exactly? && c.dayOfWeek.Exactly?
    then MatchesField(Date(t), c.dayOfMonth) || MatchesField(Weekday(t), c.dayOfWeek)
    else MatchesField(Date(t), c.dayOfMonth) && MatchesField(Weekday(t), c.dayOfWeek)
  }

  /** The other three fields as the scheduler reads them. */
  predicate MatchesCrontab(t: int, c: Parsed) {
    && MatchesField(Minutes(t), c.minute) && MatchesField(Hours(t), c.hour) && MatchesField(Month(t), c.month)
    && EitherDay(t, c)
  }

  ghost predicate SameTimes(c: Parsed) { forall t :: MatchesCron(t, c) <==> MatchesCrontab(t, c) }

  ghost predicate SomeMonth(c: Parsed) { exists m :: 1 <= m <= 12 && MatchesField(m, c.month) }

  lemma DayLater(y: int, m: int, d: int, n: nat)
    requires 1 <= m <= 12
    ensures DayOf(TimeOf(y, m, d + n, 0, 0)) == DayOf(TimeOf(y, m, d, 0, 0)) + n
  {
    TimeParts(DayFromYear(y) + MonthStart(m, IsLeap(y)) + d - 1, 0, 0);
    TimeParts(DayFromYear(y) + MonthStart(m, IsLeap(y)) + (d + n) - 1, 0, 0);
    hide DayOf, DayFromYear, MonthStart, IsLeap;
  }

  lemma SameDay(y: int, m: int, d: int, h: int, min: int)
    requires 1 <= m <= 12 && 0 <= h < 24 && 0 <= min < 60
    ensures DayOf(TimeOf(y, m, d, h, min)) == DayOf(TimeOf(y, m, d, 0, 0))
  {
    TimeParts(DayFromYear(y) + MonthStart(m, IsLeap(y)) + d - 1, h, min);
    TimeParts(DayFromYear(y) + MonthStart(m, IsLeap(y)) + d - 1, 0, 0);
    hide DayOf, DayFromYear, MonthStart, IsLeap;
  }

  lemma NextWithRemainder(first: int, w: int) returns (n: nat)
    requires 0 <= w <= 6
    ensures n <= 6 && (first + n) % 7 == w && (first + n + 7) % 7 == w
  {
    var r := first % 7;
    n := if r <= w then w - r else w - r + 7;
    assert first == first / 7 * 7 + r;
  }

  /** Every month of every year has each weekday among its first seven days, and again a week later. */
  lemma WeekdayInMonth(y: int, m: int, w: int) returns (d: int)
    requires 1 <= m <= 12 && 0 <= w <= 6
    ensures 1 <= d <= 7 && (DayOf(TimeOf(y, m, d, 0, 0)) + 4) % 7 == w
    ensures (DayOf(TimeOf(y, m, d + 7, 0, 0)) + 4) % 7 == w
  {
    hide TimeOf, DayOf;
    var first := DayOf(TimeOf(y, m, 1, 0, 0));
    var n := NextWithRemainder(first + 4, w);
    d := 1 + n;
    DayLater(y, m, 1, n);
    DayLater(y, m, d, 7);
    assert DayOf(TimeOf(y, m, d, 0, 0)) + 4 == first + 4 + n;
    assert DayOf(TimeOf(y, m, d + 7, 0, 0)) + 4 == first + 4 + n + 7;
  }

  /** On such a day of another date only crontab's rule matches. */
  lemma OnlyEither(c: Parsed, y: int, m: int, d: int)
    requires WellFormed(c) && c.dayOfMonth.Exactly? && c.dayOfWeek.Exactly?
    requires 1 <= m <= 12 && MatchesField(m, c.month) && 1 <= d <= 14 && d != c.dayOfMonth.value
    requires (DayOf(TimeOf(y, m, d, 0, 0)) + 4) % 7 == c.dayOfWeek.value
    ensures !SameTimes(c)
  {
    var (h, min) := (Sample(c.hour), Sample(c.minute));
    var t := TimeOf(y, m, d, h, min);
    hide TimeOf, DayOf, Date, Month, Hours, Minutes, MonthLength, IsLeap;
    MonthLengths(m, IsLeap(y));
    TimeOfFields(y, m, d, h, min);
    SameDay(y, m, d, h, min);
    assert Weekday(t) == c.dayOfWeek.value;
    hide Weekday;
    assert MatchesCrontab(t, c) && !MatchesCron(t, c);
  }

  /**
   The scheduler runs at crontab's times exactly when one of the two day fields is not a single value, or no month
   matches at all.
   */
  lemma SameTimesIff(c: Parsed)
    requires WellFormed(c)
    ensures SameTimes(c) <==> !c.dayOfMonth.Exactly? || !c.dayOfWeek.Exactly? || !SomeMonth(c)
  {
    hide Date, Month, Hours, Minutes, Weekday, TimeOf, DayOf;
    if c.dayOfMonth.Exactly? && c.dayOfWeek.Exactly? && SomeMonth(c) {
      var m :| 1 <= m <= 12 && MatchesField(m, c.month);
      var d := WeekdayInMonth(1970, m, c.dayOfWeek.value);
      OnlyEither(c, 1970, m, if d == c.dayOfMonth.value then d + 7 else d);
    }
  }
}
