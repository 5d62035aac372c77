/** What the next run means in terms of the clock: minutes of the hour, hours, dates, months and days of the week. */
module CronMeaning {
  import opened Options
  import opened Calendar
  import opened Cron

  /** A single value is that value, and an interval is its multiples. */
  ghost predicate Meant(value: int, f: Field) {
    match f
    case Wildcard => true
    case Exactly(v) => value == v
    case Every(n) => exists q: int :: value == n * q
  }

  lemma FieldMeaning(value: int, f: Field)
    requires f.Every? ==> f.interval > 0
    ensures MatchesField(value, f) <==> Meant(value, f)
  {
    if f.Every? {
      var n := f.interval;
      if value % n == 0 { assert value == n * (value / n); }
      if Meant(value, f) {
        var q: int :| value == n * q;
        MultipleIsZero(n, q);
      }
    }
  }

  lemma MulSize(n: int, k: int)
    requires n > 0
    ensures (k >= 1 ==> n * k >= n) && (k <= -1 ==> n * k <= -n)
  {
  }

  lemma MultipleIsZero(n: int, q: int)
    requires n > 0
    ensures (n * q) % n == 0
  {
    var (d, r) := ((n * q) / n, (n * q) % n);
    assert n * q == n * d + r;
    assert n * (q - d) == r;
    MulSize(n, q - d);
  }

  /** At the local minute `t` every field means the part of the clock it stands for. */
  ghost predicate Due(t: int, c: Parsed) {
    && Meant(Minutes(t), c.minute) && Meant(Hours(t), c.hour) && Meant(Date(t), c.dayOfMonth)
    && Meant(Month(t), c.month) && Meant(Weekday(t), c.dayOfWeek)
  }

  lemma DueMeaning(t: int, c: Parsed)
    requires WellFormed(c)
    ensures MatchesCron(t, c) <==> Due(t, c)
  {
    hide MatchesField, Meant, Minutes, Hours, Date, Month, Weekday;
    FieldMeaning(Minutes(t), c.minute);
    FieldMeaning(Hours(t), c.hour);
    FieldMeaning(Date(t), c.dayOfMonth);
    FieldMeaning(Month(t), c.month);
    FieldMeaning(Weekday(t), c.dayOfWeek);
  }

  /** The whole minute `t` lies between two moments. */
  ghost predicate Between(now: int, t: int, run: int) { now < t * 60000 < run }

  ghost predicate WithinYear(now: int, t: int) { now < t * 60000 <= now + 366 * 86400000 }

  /** The run is the first later whole minute that is due; there is none when no minute of the next 366 days is due. */
  lemma NextRunMeaning(c: Parsed, now: int, offset: int, run: Option<int>)
    requires WellFormed(c) && IsNextRun(c, now, offset, run)
    ensures run.Some? ==>
      && run.value % 60000 == 0 && now < run.value && Due(run.value / 60000 + offset, c)
      && forall t :: Between(now, t, run.value) ==> !Due(t + offset, c)
    ensures run.None? <==> forall t :: WithinYear(now, t) ==> !Due(t + offset, c)
  {
    hide MatchesCron, Due;
    if run.Some? {
      var m := run.value / 60000;
      MinuteFacts(now, m, offset);
      DueMeaning(m + offset, c);
      forall t | Between(now, t, run.value) ensures !Due(t + offset, c) {
        MinuteFacts(now, t, offset);
        DueMeaning(t + offset, c);
      }
    }
    forall t ensures LimitHolds(now, t, offset) { LimitFacts(now, t, offset); }
    if run.None? {
      forall t | WithinYear(now, t) ensures !Due(t + offset, c) {
        assert LimitHolds(now, t, offset);
        DueMeaning(t + offset, c);
      }
    }
    if forall t :: WithinYear(now, t) ==> !Due(t + offset, c) {
      forall t | LocalMinute(now, offset) < t <= LocalMinute(now, offset) + LIMIT ensures !MatchesCron(t, c) {
        assert LimitHolds(now, t - offset, offset);
        DueMeaning(t, c);
      }
    }
  }

  ghost predicate LimitHolds(now: int, t: int, offset: int) {
    WithinYear(now, t) <==> LocalMinute(now, offset) < t + offset <= LocalMinute(now, offset) + LIMIT
  }

  lemma LimitFacts(now: int, t: int, offset: int)
    ensures LimitHolds(now, t, offset)
  {
    MinuteFacts(now, t, offset);
    MinuteFacts(now, t - LIMIT - 1, offset);
    assert (t - LIMIT) * 60000 == t * 60000 - 366 * 86400000;
    MinuteFacts(now, t - LIMIT, offset);
  }

  // ---------- every n minutes ----------

  function EveryMinute(n: int): Parsed { Parsed(Every(n), Wildcard, Wildcard, Wildcard, Wildcard) }

  lemma MultiplesApart(n: int, value: int, all: int)
    requires n > 0 && value < all && all % n == 0 && value % n == 0
    ensures all - value >= n
  {
    var (a, b) := (value / n, all / n);
    assert value == n * a && all == n * b;
    assert all - value == n * (b - a);
    MulSize(n, b - a);
    if b - a <= 0 { MulNotPositive(n, b - a); }
  }

  lemma MulNotPositive(n: int, k: int)
    requires n > 0 && k <= 0
    ensures n * k <= 0
  {
  }

  lemma NextMultiple(n: int, value: int, all: int) returns (step: int)
    requires 1 <= n < all && 0 <= value < all
    ensures 1 <= step <= n && (value + step == all || (value + step < all && (value + step) % n == 0))
    ensures all % n == 0 && value % n == 0 ==> step == n
  {
    var (d, r) := (value / n, value % n);
    assert value == n * d + r && 0 <= r < n;
    if value + (n - r) < all {
      step := n - r;
      assert value + step == n * (d + 1);
      MultipleIsZero(n, d + 1);
    } else {
      step := all - value;
      if all % n == 0 && r == 0 { MultiplesApart(n, value, all); }
    }
  }

  lemma ZeroIsMultiple(n: int)
    requires n > 0
    ensures 0 % n == 0
  {
  }

  /** One of the next n minutes of the clock is due: the next multiple, or the full hour. */
  lemma SomeMinuteDue(n: int, t0: int) returns (t: int)
    requires 1 <= n <= 59
    ensures t0 < t <= t0 + n && Minutes(t) % n == 0
    ensures 60 % n == 0 && Minutes(t0) % n == 0 ==> t == t0 + n
  {
    var step := NextMultiple(n, t0 % 60, 60);
    t := t0 + step;
    ZeroIsMultiple(n);
    assert t % 60 == if t0 % 60 + step == 60 then 0 else t0 % 60 + step;
  }

  lemma MinuteIsDue(n: int, t: int)
    requires 1 <= n <= 59
    ensures Due(t, EveryMinute(n)) <==> Minutes(t) % n == 0
  {
    hide Minutes;
    FieldMeaning(Minutes(t), Every(n));
  }

  /**
   Every n minutes: the run is the first later whole minute whose minute of the hour is a multiple of n. It is at most n
   minutes ahead; from a whole minute that is such a multiple it is exactly n minutes ahead if n divides 60.
   */
  lemma EveryMinuteRuns(n: int, now: int, offset: int, run: Option<int>)
    requires 1 <= n <= 59 && IsNextRun(EveryMinute(n), now, offset, run)
    ensures run.Some? && run.value % 60000 == 0 && now < run.value <= now + n * 60000
    ensures Minutes(run.value / 60000 + offset) % n == 0
    ensures forall t :: Between(now, t, run.value) ==> Minutes(t + offset) % n != 0
    ensures 60 % n == 0 && now % 60000 == 0 && Minutes(now / 60000 + offset) % n == 0 ==> run.value == now + n * 60000
  {
    hide IsNextRun, Due, Minutes, EveryMinute;
    var c := EveryMinute(n);
    assert WellFormed(c) by { EveryMinuteFormed(n); }
    var start := now / 60000;
    var t := SomeMinuteDue(n, start + offset);
    MinuteIsDue(n, t);
    WithinLimit(now, t - offset, n);
    var k := RunInMinutes(c, now, offset, run, t - offset);
    MinuteIsDue(n, k + offset);
    forall t | Between(now, t, run.value) ensures Minutes(t + offset) % n != 0 { MinuteIsDue(n, t + offset); }
    if 60 % n == 0 && now % 60000 == 0 && Minutes(start + offset) % n == 0 && k < start + n {
      WholeMinutes(now);
      NoneBetween(n, start + offset, k + offset);
    }
  }

  lemma EveryMinuteFormed(n: int)
    requires n > 0
    ensures WellFormed(EveryMinute(n))
  {
  }

  /** Between two neighbouring multiples on the clock there is none. */
  lemma NoneBetween(n: int, t0: int, t: int)
    requires 1 <= n <= 59 && 60 % n == 0 && Minutes(t0) % n == 0 && t0 < t < t0 + n
    ensures Minutes(t) % n != 0
  {
    var (v, d) := (t0 % 60, t - t0);
    MultiplesApart(n, v, 60);
    assert t % 60 == v + d;
    SmallNotMultiple(n, v, d);
  }

  lemma SmallNotMultiple(n: int, v: int, d: int)
    requires n > 0 && v % n == 0 && 0 < d < n
    ensures (v + d) % n != 0
  {
    if (v + d) % n == 0 { MultiplesApart(n, v, v + d); }
  }

  lemma WithinLimit(now: int, t: int, n: int)
    requires now / 60000 < t <= now / 60000 + n && n <= 366 * 1440
    ensures WithinYear(now, t) && t * 60000 <= now + n * 60000
  {
  }

  lemma WholeMinutes(run: int)
    requires run % 60000 == 0
    ensures run == run / 60000 * 60000
  {
  }

  /** The run in whole minutes, no later than any minute that is due within the limit. */
  lemma RunInMinutes(c: Parsed, now: int, offset: int, run: Option<int>, due: int) returns (k: int)
    requires WellFormed(c) && IsNextRun(c, now, offset, run)
    requires WithinYear(now, due) && Due(due + offset, c)
    ensures run == Some(k * 60000) && k <= due && now < k * 60000 && run.value / 60000 == k && Due(k + offset, c)
    ensures forall t :: Between(now, t, run.value) ==> !Due(t + offset, c)
  {
    hide IsNextRun, Due, WellFormed, WithinYear, Between;
    NextRunMeaning(c, now, offset, run);
    k := run.value / 60000;
    WholeMinutes(run.value);
    NotBetween(now, due, run.value);
  }

  lemma NotBetween(now: int, t: int, run: int)
    requires WithinYear(now, t) && run % 60000 == 0
    ensures !Between(now, t, run) ==> run / 60000 <= t
  {
  }

  // ---------- every n hours ----------

  function EveryHour(m: int, n: int): Parsed { Parsed(Exactly(m), Every(n), Wildcard, Wildcard, Wildcard) }

  lemma SomeHourDue(m: int, n: int, t0: int) returns (t: int)
    requires 0 <= m <= 59 && 1 <= n <= 23
    ensures t0 < t <= t0 + n * 60 && Minutes(t) == m && Hours(t) % n == 0
    ensures 24 % n == 0 && Minutes(t0) == m && Hours(t0) % n == 0 ==> t == t0 + n * 60
  {
    var hour := (t0 - m) / 60;
    var step := NextMultiple(n, hour % 24, 24);
    t := (hour + step) * 60 + m;
    ZeroIsMultiple(n);
    assert t / 60 == hour + step && t % 60 == m;
    assert (hour + step) % 24 == if hour % 24 + step == 24 then 0 else hour % 24 + step;
    if Minutes(t0) == m { assert hour == t0 / 60 && t0 == hour * 60 + m; }
  }

  lemma HourIsDue(m: int, n: int, t: int)
    requires 0 <= m <= 59 && 1 <= n <= 23
    ensures Due(t, EveryHour(m, n)) <==> Minutes(t) == m && Hours(t) % n == 0
  {
    hide Minutes, Hours;
    FieldMeaning(Hours(t), Every(n));
  }

  /**
   At a minute of every n-th hour: the run is the first later time at that minute of an hour that is a multiple of n,
   and at most n hours ahead.
   */
  lemma EveryHourRuns(m: int, n: int, now: int, offset: int, run: Option<int>)
    requires 0 <= m <= 59 && 1 <= n <= 23 && IsNextRun(EveryHour(m, n), now, offset, run)
    ensures run.Some? && run.value % 60000 == 0 && now < run.value <= now + n * 3600000
    ensures var t := run.value / 60000 + offset; Minutes(t) == m && Hours(t) % n == 0
    ensures forall t :: Between(now, t, run.value) ==> Minutes(t + offset) != m || Hours(t + offset) % n != 0
  {
    hide IsNextRun, Due, Minutes, Hours, EveryHour;
    var c := EveryHour(m, n);
    assert WellFormed(c) by { EveryHourFormed(m, n); }
    var t := SomeHourDue(m, n, now / 60000 + offset);
    HourIsDue(m, n, t);
    WithinLimit(now, t - offset, n * 60);
    var k := RunInMinutes(c, now, offset, run, t - offset);
    HourIsDue(m, n, k + offset);
    forall t | Between(now, t, run.value) ensures Minutes(t + offset) != m || Hours(t + offset) % n != 0 {
      HourIsDue(m, n, t + offset);
    }
  }

  lemma EveryHourFormed(m: int, n: int)
    requires 0 <= m <= 59 && n > 0
    ensures WellFormed(EveryHour(m, n))
  {
  }

  // ---------- single values ----------

  ghost predicate OnDate(t: int, y: int, month: int, d: int, h: int, m: int)
    requires 1 <= month <= 12
  {
    1 <= d <= MonthLength(month, IsLeap(y)) && t == TimeOf(y, month, d, h, m)
  }

  ghost predicate InSomeYear(t: int, month: int, d: int, h: int, m: int)
    requires 1 <= month <= 12
  {
    exists y :: OnDate(t, y, month, d, h, m)
  }

  /** With single values in all fields but the day of the week, they are the parts of the local time of the run. */
  lemma SingleValueRuns(m: int, h: int, d: int, month: int, now: int, offset: int, run: Option<int>)
    requires 0 <= m <= 59 && 0 <= h <= 23 && 1 <= d <= 31 && 1 <= month <= 12
    requires IsNextRun(Parsed(Exactly(m), Exactly(h), Exactly(d), Exactly(month), Wildcard), now, offset, run)
    ensures run.Some? ==> InSomeYear(run.value / 60000 + offset, month, d, h, m)
    ensures run.Some? ==> run.value % 60000 == 0 && now < run.value
  {
    hide IsNextRun, MonthLength, IsLeap, TimeOf, Minutes, Hours, Date, Month, YearOf, DayOf, Weekday;
    NextRunMeaning(Parsed(Exactly(m), Exactly(h), Exactly(d), Exactly(month), Wildcard), now, offset, run);
    if run.Some? {
      var t := run.value / 60000 + offset;
      FieldsOfTime(t);
      assert OnDate(t, YearOf(DayOf(t)), month, d, h, m);
    }
  }
}
