/** Cron expressions of the report scheduler and the search for the next matching minute. */
module Cron {
  import opened Options
  import opened Decimal
  import opened Calendar

  datatype Field = Wildcard | Exactly(value: int) | Every(interval: int)

  datatype Parsed = Parsed(minute: Field, hour: Field, dayOfMonth: Field, month: Field, dayOfWeek: Field)

  // ---------- parsing ----------

  function ParseField(token: string, min: int, max: int): Option<Field> {
    if token == "*" then Some(Wildcard)
    else if |token| >= 2 && token[..2] == "*/" then
      match ParseInt(token[2..])
      case None => None
      case Some(n) => if n <= 0 then None else Some(Every(n))
    else
      match ParseInt(token)
      case None => None
      case Some(n) => if n < min || n > max then None else Some(Exactly(n))
  }

  /** The maximal runs of non-blanks: what trimming and splitting at blanks leaves. */
  function Words(s: string): seq<string> {
    if s == [] then []
    else if IsBlank(s[0]) then Words(s[1..])
    else if |s| == 1 || IsBlank(s[1]) then [[s[0]]] + Words(s[1..])
    else var rest := Words(s[1..]); if rest == [] then [[s[0]]] else [[s[0]] + rest[0]] + rest[1..]
  }

  /** No value stands for the thrown error: not five fields, or a field that is no cron field. */
  function ParseCron(expression: string): Option<Parsed> {
    var parts := Words(expression);
    if |parts| != 5 then None
    else
      var minute, hour := ParseField(parts[0], 0, 59), ParseField(parts[1], 0, 23);
      var date, month := ParseField(parts[2], 1, 31), ParseField(parts[3], 1, 12);
      var weekday := ParseField(parts[4], 0, 6);
      if minute.None? || hour.None? || date.None? || month.None? || weekday.None? then None
      else Some(Parsed(minute.value, hour.value, date.value, month.value, weekday.value))
  }

  predicate InRange(f: Field, min: int, max: int) {
    match f
    case Wildcard => true
    case Exactly(v) => min <= v <= max
    case Every(n) => n > 0
  }

  predicate WellFormed(c: Parsed) {
    InRange(c.minute, 0, 59) && InRange(c.hour, 0, 23) && InRange(c.dayOfMonth, 1, 31) && InRange(c.month, 1, 12) &&
    InRange(c.dayOfWeek, 0, 6)
  }

  function PrintField(f: Field): string
    requires InRange(f, 0, 59)
  {
    match f
    case Wildcard => "*"
    case Exactly(v) => PrintNat(v)
    case Every(n) => "*/" + PrintNat(n)
  }

  function PrintCron(c: Parsed): string
    requires WellFormed(c)
  {
    PrintField(c.minute) + " " + PrintField(c.hour) + " " + PrintField(c.dayOfMonth) + " " + PrintField(c.month) + " " +
    PrintField(c.dayOfWeek)
  }

  // ---------- matching and searching ----------

  predicate MatchesField(value: int, f: Field) {
    match f
    case Wildcard => true
    case Exactly(v) => value == v
    case Every(n) => n > 0 && value % n == 0
  }

  /** All five fields have to match, the two day fields included. */
  predicate MatchesCron(t: int, c: Parsed) {
    MatchesField(Minutes(t), c.minute) && MatchesField(Hours(t), c.hour) && MatchesField(Date(t), c.dayOfMonth) &&
    MatchesField(Month(t), c.month) && MatchesField(Weekday(t), c.dayOfWeek)
  }

  const LIMIT := 366 * 24 * 60

  /** The local minute a clock reading in UTC milliseconds falls into; `offset` is in minutes. */
  function LocalMinute(now: int, offset: int): int {
    (now + offset * 60000) / 60000
  }

  /**
   The search of the source, as the local minute it stops at. It tries the minutes after the current one, for
   366 days, and gives up (here: `None`) exactly when none of them matches.
   */
  method NextRunMinute(c: Parsed, now: int, offset: int) returns (found: Option<int>)
    ensures found.Some? ==>
      && LocalMinute(now, offset) < found.value <= LocalMinute(now, offset) + LIMIT && MatchesCron(found.value, c)
      && forall t :: LocalMinute(now, offset) < t < found.value ==> !MatchesCron(t, c)
    ensures found.None? <==> forall t :: LocalMinute(now, offset) < t <= LocalMinute(now, offset) + LIMIT ==>
        !MatchesCron(t, c)
  {
    var next := LocalMinute(now, offset) + 1;
    for i := 0 to LIMIT
      invariant next == LocalMinute(now, offset) + 1 + i
      invariant forall t :: LocalMinute(now, offset) < t < next ==> !MatchesCron(t, c)
    {
      if MatchesCron(next, c) {
        return Some(next);
      }
      next := next + 1;
    }
    return None;
  }

  lemma MinuteFacts(now: int, t: int, offset: int)
    ensures LocalMinute(t * 60000, offset) == t + offset
    ensures now < t * 60000 <==> LocalMinute(now, offset) < t + offset
  {
    assert t * 60000 + offset * 60000 == (t + offset) * 60000;
  }

  /**
   The first later whole minute, as a UTC time in milliseconds, that matches in local time; none exactly when no minute
   of the next 366 days matches.
   */
  ghost predicate IsNextRun(c: Parsed, now: int, offset: int, run: Option<int>) {
    && (run.Some? ==>
          && run.value % 60000 == 0 && now < run.value && MatchesCron(LocalMinute(run.value, offset), c)
          && forall t :: now < t * 60000 < run.value ==> !MatchesCron(LocalMinute(t * 60000, offset), c))
    && (run.None? <==>
          forall t :: LocalMinute(now, offset) < t <= LocalMinute(now, offset) + LIMIT ==> !MatchesCron(t, c))
  }

  /** `getNextRun`: no value for a bad expression or an empty search, otherwise the UTC time in milliseconds. */
  method GetNextRun(cron: string, now: int, offset: int) returns (run: Option<int>)
    ensures ParseCron(cron).None? ==> run == None
    ensures ParseCron(cron).Some? ==> IsNextRun(ParseCron(cron).value, now, offset, run)
  {
    hide MatchesCron, ParseCron, LocalMinute;
    var parsed := ParseCron(cron);
    if parsed.None? {
      return None;
    }
    var found := NextRunMinute(parsed.value, now, offset);
    if found.None? {
      return None;
    }
    run := Some((found.value - offset) * 60000);
    MinuteFacts(now, found.value - offset, offset);
    forall t | now < t * 60000 < run.value ensures !MatchesCron(LocalMinute(t * 60000, offset), parsed.value) {
      MinuteFacts(now, t, offset);
    }
  }

  // ---------- when the search succeeds ----------

  predicate DateMatches(m: int, d: int, c: Parsed) {
    MatchesField(d, c.dayOfMonth) && MatchesField(m, c.month)
  }

  /** A value every in-range field of a clock accepts: the value itself, or zero. */
  function Sample(f: Field): int {
    if f.Exactly? then f.value else 0
  }

  lemma LastYearIsPast(from: int, m: int, d: int, h: int, min: int)
    requires IsYearlyDate(m, d) && 0 <= h < 24 && 0 <= min < 60
    ensures TimeOf(YearOf(DayOf(from)) - 1, m, d, h, min) <= from
  {
    YearLength(YearOf(DayOf(from)) - 1);
    hide DayFromYear;
  }

  lemma {:induction false} NextOccurrence(from: int, m: int, d: int, h: int, min: int, past: int) returns (y: int)
    requires IsYearlyDate(m, d) && 1 <= m <= 12 && TimeOf(past, m, d, h, min) <= from
    ensures from < TimeOf(y, m, d, h, min) <= from + LIMIT
    decreases from - TimeOf(past, m, d, h, min)
  {
    hide TimeOf, IsYearlyDate;
    YearlyStep(past, m, d, h, min);
    if TimeOf(past + 1, m, d, h, min) <= from {
      y := NextOccurrence(from, m, d, h, min, past + 1);
    } else {
      y := past + 1;
    }
  }

  /** The first occurrence of a yearly date and time after a given minute is at most 366 days away. */
  lemma YearlyOccurrence(from: int, m: int, d: int, h: int, min: int) returns (y: int)
    requires IsYearlyDate(m, d) && 0 <= h < 24 && 0 <= min < 60
    ensures from < TimeOf(y, m, d, h, min) <= from + LIMIT
  {
    hide TimeOf, YearOf, DayOf;
    LastYearIsPast(from, m, d, h, min);
    y := NextOccurrence(from, m, d, h, min, YearOf(DayOf(from)) - 1);
  }

  ghost predicate SomeYearlyDateMatches(c: Parsed) {
    exists m, d :: IsYearlyDate(m, d) && DateMatches(m, d, c)
  }

  ghost predicate SearchSucceeds(c: Parsed, from: int) {
    exists t :: from < t <= from + LIMIT && MatchesCron(t, c)
  }

  lemma YearlyDateIsFound(c: Parsed, from: int)
    requires WellFormed(c) && c.dayOfWeek.Wildcard? && SomeYearlyDateMatches(c)
    ensures SearchSucceeds(c, from)
  {
    var m, d :| IsYearlyDate(m, d) && DateMatches(m, d, c);
    var h, min := Sample(c.hour), Sample(c.minute);
    var y := YearlyOccurrence(from, m, d, h, min);
    TimeOfFields(y, m, d, h, min);
    assert MatchesCron(TimeOf(y, m, d, h, min), c);
  }

  /** The 366 days after the end of February 2025 hold no 29 February. */
  lemma NoLeapDayAhead(t: int)
    requires TimeOf(2025, 3, 1, 0, 0) <= t <= TimeOf(2025, 3, 1, 0, 0) + LIMIT
    ensures IsYearlyDate(Month(t), Date(t))
  {
    if DayOf(t) < DayFromYear(2026) { YearUnique(DayOf(t), 2025); } else { YearUnique(DayOf(t), 2026); }
    FieldsOfTime(t);
  }

  /**
   With the day of the week left open, the search succeeds whenever it is started exactly when some date other
   than 29 February matches the month and day fields.
   */
  lemma SearchAlwaysSucceedsIff(c: Parsed)
    requires WellFormed(c) && c.dayOfWeek.Wildcard?
    ensures (forall from :: SearchSucceeds(c, from)) <==> SomeYearlyDateMatches(c)
  {
    if SomeYearlyDateMatches(c) {
      forall from ensures SearchSucceeds(c, from) { YearlyDateIsFound(c, from); }
    }
    if forall from :: SearchSucceeds(c, from) {
      var from := TimeOf(2025, 3, 1, 0, 0);
      assert SearchSucceeds(c, from);
      var t :| from < t <= from + LIMIT && MatchesCron(t, c);
      NoLeapDayAhead(t);
      assert DateMatches(Month(t), Date(t), c);
    }
  }

  // ---------- parsing what was printed ----------

  lemma ParsedIsWellFormed(expression: string)
    ensures ParseCron(expression).Some? ==> WellFormed(ParseCron(expression).value)
  {
  }

  predicate IsWord(s: string) { s != [] && forall i :: 0 <= i < |s| ==> !IsBlank(s[i]) }

  lemma PrintFieldParses(f: Field, min: int, max: int)
    requires 0 <= min && max <= 59 && InRange(f, min, max)
    ensures IsWord(PrintField(f)) && ParseField(PrintField(f), min, max) == Some(f)
  {
    match f
    case Wildcard =>
    case Exactly(v) =>
      ParseIntPrinted(v, []);
      assert PrintNat(v) + [] == PrintNat(v);
      assert IsDigit(PrintNat(v)[0]);
    case Every(n) =>
      ParseIntPrinted(n, []);
      assert PrintNat(n) + [] == PrintNat(n);
      var s := "*/" + PrintNat(n);
      assert s[..2] == "*/" && s[2..] == PrintNat(n);
  }

  lemma {:induction false} WordsOfWord(w: string, rest: string)
    requires IsWord(w) && (rest == [] || IsBlank(rest[0]))
    ensures Words(w + rest) == [w] + Words(rest)
  {
    var s := w + rest;
    assert s[0] == w[0] && !IsBlank(w[0]);
    if |w| == 1 {
      assert s[1..] == rest && w == [s[0]];
    } else {
      assert s[1..] == w[1..] + rest;
      WordsOfWord(w[1..], rest);
      assert [s[0]] + w[1..] == w;
    }
  }

  lemma WordThenMore(w: string, rest: string)
    requires IsWord(w)
    ensures Words(w + " " + rest) == [w] + Words(rest)
  {
    WordsOfWord(w, " " + rest);
    assert w + " " + rest == w + (" " + rest);
    assert (" " + rest)[1..] == rest;
  }

  lemma FiveWords(p0: string, p1: string, p2: string, p3: string, p4: string)
    requires IsWord(p0) && IsWord(p1) && IsWord(p2) && IsWord(p3) && IsWord(p4)
    ensures Words(p0 + " " + p1 + " " + p2 + " " + p3 + " " + p4) == [p0, p1, p2, p3, p4]
  {
    hide Words, IsWord;
    var t3 := p3 + " " + p4;
    var t2 := p2 + " " + t3;
    var t1 := p1 + " " + t2;
    WordThenMore(p0, t1);
    WordThenMore(p1, t2);
    WordThenMore(p2, t3);
    WordThenMore(p3, p4);
    LastWord(p4);
    assert p0 + " " + t1 == p0 + " " + p1 + " " + p2 + " " + p3 + " " + p4;
  }

  lemma LastWord(w: string)
    requires IsWord(w)
    ensures Words(w) == [w]
  {
    WordsOfWord(w, []);
    assert w + [] == w;
  }

  /** A printed cron expression reads back as itself. */
  lemma PrintCronParses(c: Parsed)
    requires WellFormed(c)
    ensures ParseCron(PrintCron(c)) == Some(c)
  {
    PrintFieldParses(c.minute, 0, 59);
    PrintFieldParses(c.hour, 0, 23);
    PrintFieldParses(c.dayOfMonth, 1, 31);
    PrintFieldParses(c.month, 1, 12);
    PrintFieldParses(c.dayOfWeek, 0, 6);
    FiveWords(PrintField(c.minute), PrintField(c.hour), PrintField(c.dayOfMonth), PrintField(c.month),
              PrintField(c.dayOfWeek));
    hide Words, ParseField, PrintField, IsWord;
  }
}
