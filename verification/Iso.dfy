/** The date texts of `Date.prototype.toISOString` (ECMA-262, section 21.4.1.32) and their reading back. */
module Iso {
  import opened Options
  import opened Decimal
  import opened Calendar

  /** Time values a Date can hold, in milliseconds. */
  const MAX_TIME := 8640000000000000

  predicate IsTime(ms: int) { -MAX_TIME <= ms <= MAX_TIME }

  /** The last `w` decimal digits of a number. */
  function Pad(n: nat, w: nat): (s: string)
    ensures |s| == w && AllDigits(s)
  {
    if w == 0 then [] else Pad(n / 10, w - 1) + [DigitChar(n % 10)]
  }

  function Pow10(w: nat): nat { if w == 0 then 1 else 10 * Pow10(w - 1) }

  lemma {:induction false} PadValue(n: nat, w: nat)
    requires n < Pow10(w)
    ensures DigitsValue(Pad(n, w)) == n
  {
    if w > 0 {
      PadValue(n / 10, w - 1);
      var s := Pad(n, w);
      assert s[..|s| - 1] == Pad(n / 10, w - 1);
    }
  }

  function YearText(y: int): string {
    if 0 <= y <= 9999 then Pad(y, 4)
    else if y < 0 then "-" + Pad(-y, 6)
    else "+" + Pad(y, 6)
  }

  /** A separator and a number of fixed width. */
  function Part(sep: char, n: nat, w: nat): string { [sep] + Pad(n, w) }

  datatype Clock = Clock(mo: nat, d: nat, h: nat, mi: nat, sec: nat, milli: nat)

  function ClockText(c: Clock): string {
    Part('-', c.mo, 2) + (Part('-', c.d, 2) + (Part('T', c.h, 2) + (Part(':', c.mi, 2) + (Part(':', c.sec, 2) +
    (Part('.', c.milli, 3) + "Z")))))
  }

  function YearAt(ms: int): int { YearOf(DayOf(ms / 60000)) }

  /** The fields of a time below its year. */
  function ClockAt(ms: int): Clock {
    FieldsOfTime(ms / 60000);
    Clock(Month(ms / 60000), Date(ms / 60000), Hours(ms / 60000), Minutes(ms / 60000), ms / 1000 % 60, ms % 1000)
  }

  function ToIso(ms: int): string { YearText(YearAt(ms)) + ClockText(ClockAt(ms)) }

  /** A number of fixed width at the start of a text, and what follows it. */
  function TakeDigits(s: string, w: nat): Option<(nat, string)> {
    if w <= |s| && AllDigits(s[..w]) then Some((DigitsValue(s[..w]), s[w..])) else None
  }

  function Take(s: string, sep: char, w: nat): Option<(nat, string)> {
    if s == [] || s[0] != sep then None else TakeDigits(s[1..], w)
  }

  function TakeYear(s: string): Option<(int, string)> {
    if s != [] && (s[0] == '+' || s[0] == '-') then
      match TakeDigits(s[1..], 6)
      case None => None
      case Some((y, rest)) =>
        if s[0] == '-' && y == 0 then None else Some((if s[0] == '-' then -(y as int) else y, rest))
    else
      match TakeDigits(s, 4)
      case None => None
      case Some((y, rest)) => Some((y, rest))
  }

  function ReadClock(s: string): Option<Clock> {
    match Take(s, '-', 2) case None => None case Some((mo, s1)) =>
    match Take(s1, '-', 2) case None => None case Some((d, s2)) =>
    match Take(s2, 'T', 2) case None => None case Some((h, s3)) =>
    match Take(s3, ':', 2) case None => None case Some((mi, s4)) =>
    match Take(s4, ':', 2) case None => None case Some((sec, s5)) =>
    match Take(s5, '.', 3) case None => None case Some((milli, s6)) =>
    if s6 == "Z" then Some(Clock(mo, d, h, mi, sec, milli)) else None
  }

  predicate InCalendar(y: int, c: Clock) {
    1 <= c.mo <= 12 && 1 <= c.d <= MonthLength(c.mo, IsLeap(y)) && c.h < 24 && c.mi < 60 && c.sec < 60
  }

  function Compose(y: int, c: Clock): int
    requires InCalendar(y, c)
  {
    TimeOf(y, c.mo, c.d, c.h, c.mi) * 60000 + c.sec * 1000 + c.milli
  }

  /** The time a date text stands for; nothing for texts that are not of the form written by `ToIso`. */
  function FromIso(s: string): Option<int> {
    match TakeYear(s) case None => None case Some((y, rest)) =>
    match ReadClock(rest) case None => None case Some(c) =>
    if InCalendar(y, c) then Some(Compose(y, c)) else None
  }

  lemma TakeDigitsReads(n: nat, w: nat, rest: string)
    requires n < Pow10(w)
    ensures TakeDigits(Pad(n, w) + rest, w) == Some((n, rest))
  {
    var s := Pad(n, w) + rest;
    assert s[..w] == Pad(n, w) && s[w..] == rest;
    PadValue(n, w);
  }

  lemma TakeReads(sep: char, n: nat, w: nat, rest: string)
    requires n < Pow10(w)
    ensures Take(Part(sep, n, w) + rest, sep, w) == Some((n, rest))
  {
    assert (Part(sep, n, w) + rest)[1..] == Pad(n, w) + rest;
    TakeDigitsReads(n, w, rest);
  }

  lemma Powers()
    ensures Pow10(4) == 10000 && Pow10(6) == 1000000
  {
  }

  lemma SignedYear(y: int)
    requires !(0 <= y <= 9999)
    ensures YearText(y) == Part(if y < 0 then '-' else '+', if y < 0 then -y else y, 6)
  {
  }

  lemma TakeYearReads(y: int, rest: string)
    requires -999999 <= y <= 999999
    ensures TakeYear(YearText(y) + rest) == Some((y, rest))
  {
    Powers();
    hide Pow10, TakeDigits, Pad;
    var s := YearText(y) + rest;
    if 0 <= y <= 9999 {
      TakeDigitsReads(y, 4, rest);
      assert s[0] == Pad(y, 4)[0] && IsDigit(s[0]);
    } else {
      var n := if y < 0 then -y else y;
      SignedYear(y);
      TakeDigitsReads(n, 6, rest);
      assert s[1..] == Pad(n, 6) + rest;
    }
  }

  lemma ClockTextReads(c: Clock)
    requires c.mo < 100 && c.d < 100 && c.h < 100 && c.mi < 100 && c.sec < 100 && c.milli < 1000
    ensures ReadClock(ClockText(c)) == Some(c)
  {
    assert Pow10(2) == 100 && Pow10(3) == 1000;
    hide Pow10, Take, Part;
    var s6 := "Z";
    var s5 := Part('.', c.milli, 3) + s6;
    var s4 := Part(':', c.sec, 2) + s5;
    var s3 := Part(':', c.mi, 2) + s4;
    var s2 := Part('T', c.h, 2) + s3;
    var s1 := Part('-', c.d, 2) + s2;
    TakeReads('.', c.milli, 3, s6);
    TakeReads(':', c.sec, 2, s5);
    TakeReads(':', c.mi, 2, s4);
    TakeReads('T', c.h, 2, s3);
    TakeReads('-', c.d, 2, s2);
    TakeReads('-', c.mo, 2, s1);
  }

  /** Years of time values have at most six digits. */
  lemma YearRange(ms: int)
    requires IsTime(ms)
    ensures -999999 <= YearAt(ms) <= 999999
  {
    var day := DayOf(ms / 60000);
    assert -100000000 <= day <= 100000000;
    var y := YearOf(day);
    if y > 999999 { YearsGrow(1970, y); }
    if y < -999999 { YearsGrow(y + 1, 1970); }
  }

  lemma DateRange(t: int)
    ensures 1 <= Date(t) <= 31
  {
    hide Date, Month, TimeOf, YearOf, DayOf, IsLeap;
    FieldsOfTime(t);
  }

  lemma SplitMinute(ms: int)
    ensures ms == ms / 60000 * 60000 + ms / 1000 % 60 * 1000 + ms % 1000
  {
    assert ms / 60000 == ms / 1000 / 60;
  }

  lemma ClockFacts(ms: int)
    ensures var c := ClockAt(ms);
      InCalendar(YearAt(ms), c) && Compose(YearAt(ms), c) == ms && c.mo < 100 && c.d < 100
        && c.h < 100 && c.mi < 100 && c.sec < 100 && c.milli < 1000
  {
    FieldsOfTime(ms / 60000);
    DateRange(ms / 60000);
    SplitMinute(ms);
    hide TimeOf, MonthLength, IsLeap, YearOf, Month, Date, Hours, Minutes, DayOf;
  }

  /** Every time a Date can hold is read back from its text. */
  lemma IsoRoundTrip(ms: int)
    requires IsTime(ms)
    ensures FromIso(ToIso(ms)) == Some(ms)
  {
    hide ClockAt, YearAt, ClockText, ReadClock, TakeYear, YearText, InCalendar, Compose;
    ClockFacts(ms);
    YearRange(ms);
    ClockTextReads(ClockAt(ms));
    TakeYearReads(YearAt(ms), ClockText(ClockAt(ms)));
  }

  // ---------- the form of the text ----------

  ghost predicate NumberAt(s: string, at: nat, w: nat, n: int) {
    at + w <= |s| && AllDigits(s[at..at + w]) && DigitsValue(s[at..at + w]) == n
  }

  lemma NumberShifts(s: string, t: string, at: nat, w: nat, n: int)
    requires NumberAt(t, at, w, n)
    ensures NumberAt(s + t, |s| + at, w, n)
  {
    assert (s + t)[|s| + at..|s| + at + w] == t[at..at + w];
  }

  lemma PadIsNumber(n: nat, w: nat, rest: string)
    requires n < Pow10(w)
    ensures NumberAt(Pad(n, w) + rest, 0, w, n)
  {
    PadValue(n, w);
    assert (Pad(n, w) + rest)[0..w] == Pad(n, w);
  }

  /** A separator and a number, where the rest of the text is of some form. */
  lemma PartIsNumber(sep: char, n: nat, w: nat, rest: string)
    requires n < Pow10(w)
    ensures var s := Part(sep, n, w) + rest; |s| == 1 + w + |rest| && s[0] == sep && NumberAt(s, 1, w, n)
  {
    PadIsNumber(n, w, rest);
    NumberShifts([sep], Pad(n, w) + rest, 0, w, n);
    assert Part(sep, n, w) + rest == [sep] + (Pad(n, w) + rest);
  }

  ghost predicate Separated(s: string, at: nat, sep: char, w: nat, n: int) {
    at < |s| && s[at] == sep && NumberAt(s, at + 1, w, n)
  }

  lemma SeparatedShifts(s: string, t: string, at: nat, sep: char, w: nat, n: int)
    requires Separated(t, at, sep, w, n)
    ensures Separated(s + t, |s| + at, sep, w, n)
  {
    NumberShifts(s, t, at + 1, w, n);
  }

  /** Month, day, hours, minutes, seconds and milliseconds, each behind its separator, and the Z. */
  ghost predicate ClockForm(s: string, at: nat, c: Clock) {
    && |s| == at + 20 && s[at + 19] == 'Z'
    && Separated(s, at, '-', 2, c.mo) && Separated(s, at + 3, '-', 2, c.d) && Separated(s, at + 6, 'T', 2, c.h)
    && Separated(s, at + 9, ':', 2, c.mi) && Separated(s, at + 12, ':', 2, c.sec)
    && Separated(s, at + 15, '.', 3, c.milli)
  }

  lemma DateForm(mo: nat, d: nat, h: nat, rest: string)
    requires mo < 100 && d < 100 && h < 100
    ensures var s := Part('-', mo, 2) + (Part('-', d, 2) + (Part('T', h, 2) + rest));
      |s| == 9 + |rest| && s[9..] == rest
      && Separated(s, 0, '-', 2, mo) && Separated(s, 3, '-', 2, d) && Separated(s, 6, 'T', 2, h)
  {
    assert Pow10(2) == 100;
    hide Pow10, Part, NumberAt;
    var s2 := Part('T', h, 2) + rest;
    var s1 := Part('-', d, 2) + s2;
    PartIsNumber('T', h, 2, rest);
    PartIsNumber('-', d, 2, s2);
    PartIsNumber('-', mo, 2, s1);
    SeparatedShifts(Part('-', d, 2), s2, 0, 'T', 2, h);
    SeparatedShifts(Part('-', mo, 2), s1, 3, 'T', 2, h);
    SeparatedShifts(Part('-', mo, 2), s1, 0, '-', 2, d);
  }

  lemma TimeForm(mi: nat, sec: nat, milli: nat)
    requires mi < 100 && sec < 100 && milli < 1000
    ensures var s := Part(':', mi, 2) + (Part(':', sec, 2) + (Part('.', milli, 3) + "Z"));
      |s| == 11 && s[10] == 'Z'
      && Separated(s, 0, ':', 2, mi) && Separated(s, 3, ':', 2, sec) && Separated(s, 6, '.', 3, milli)
  {
    assert Pow10(2) == 100 && Pow10(3) == 1000;
    hide Pow10, NumberAt;
    var s2 := Part('.', milli, 3) + "Z";
    var s1 := Part(':', sec, 2) + s2;
    PartIsNumber('.', milli, 3, "Z");
    PartIsNumber(':', sec, 2, s2);
    PartIsNumber(':', mi, 2, s1);
    hide Part;
    SeparatedShifts(Part(':', sec, 2), s2, 0, '.', 3, milli);
    SeparatedShifts(Part(':', mi, 2), s1, 3, '.', 3, milli);
    SeparatedShifts(Part(':', mi, 2), s1, 0, ':', 2, sec);
  }

  lemma ClockTextForm(c: Clock)
    requires c.mo < 100 && c.d < 100 && c.h < 100 && c.mi < 100 && c.sec < 100 && c.milli < 1000
    ensures ClockForm(ClockText(c), 0, c)
  {
    hide Part, NumberAt, Separated;
    var rest := Part(':', c.mi, 2) + (Part(':', c.sec, 2) + (Part('.', c.milli, 3) + "Z"));
    var date := Part('-', c.mo, 2) + (Part('-', c.d, 2) + Part('T', c.h, 2));
    TimeForm(c.mi, c.sec, c.milli);
    DateForm(c.mo, c.d, c.h, rest);
    assert ClockText(c) == date + rest && |date| == 9;
    hide ClockText;
    SeparatedShifts(date, rest, 0, ':', 2, c.mi);
    SeparatedShifts(date, rest, 3, ':', 2, c.sec);
    SeparatedShifts(date, rest, 6, '.', 3, c.milli);
  }

  lemma ClockFormShifts(s: string, t: string, c: Clock)
    requires ClockForm(t, 0, c)
    ensures ClockForm(s + t, |s|, c)
  {
    hide Separated;
    SeparatedShifts(s, t, 0, '-', 2, c.mo);
    SeparatedShifts(s, t, 3, '-', 2, c.d);
    SeparatedShifts(s, t, 6, 'T', 2, c.h);
    SeparatedShifts(s, t, 9, ':', 2, c.mi);
    SeparatedShifts(s, t, 12, ':', 2, c.sec);
    SeparatedShifts(s, t, 15, '.', 3, c.milli);
  }

  /** Four digits for the years 0 to 9999, a sign and six digits for the others. */
  ghost predicate YearForm(s: string, y: int) {
    if 0 <= y <= 9999 then NumberAt(s, 0, 4, y)
    else s != "" && s[0] == (if y < 0 then '-' else '+') && NumberAt(s, 1, 6, if y < 0 then -y else y)
  }

  lemma YearTextForm(y: int, rest: string)
    requires -999999 <= y <= 999999
    ensures YearForm(YearText(y) + rest, y) && |YearText(y)| == if 0 <= y <= 9999 then 4 else 7
  {
    Powers();
    hide Pow10, NumberAt, Part;
    if 0 <= y <= 9999 {
      PadIsNumber(y, 4, rest);
    } else {
      SignedYear(y);
      hide YearText;
      PartIsNumber(if y < 0 then '-' else '+', if y < 0 then -y else y, 6, rest);
    }
  }

  /** The text of a time: year, month and day, hours, minutes, seconds and milliseconds of that time, in this form. */
  lemma IsoForm(ms: int)
    requires IsTime(ms)
    ensures var (s, y, t) := (ToIso(ms), YearOf(DayOf(ms / 60000)), ms / 60000);
      && YearForm(s, y)
      && ClockForm(s, if 0 <= y <= 9999 then 4 else 7,
           Clock(Month(t), Date(t), Hours(t), Minutes(t), ms / 1000 % 60, ms % 1000))
  {
    ClockFacts(ms);
    YearRange(ms);
    hide InCalendar, Compose, ClockText, YearText, ClockForm, YearForm, Month, Date, Hours, Minutes, YearOf, DayOf;
    YearTextForm(YearAt(ms), ClockText(ClockAt(ms)));
    ClockTextForm(ClockAt(ms));
    ClockFormShifts(YearText(YearAt(ms)), ClockText(ClockAt(ms)), ClockAt(ms));
  }
}
