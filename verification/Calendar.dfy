/**
 The proleptic Gregorian calendar of ECMA-262, section 21.4.1, counted in local minutes since 1 January 1970
 at a fixed offset from UTC. Division rounds down for dates before 1970, as the standard asks.
 */
module Calendar {

  const MINUTES_IN_A_DAY := 1440

  predicate IsLeap(y: int) { y % 4 == 0 && (y % 100 != 0 || y % 400 == 0) }

  /** The day number of 1 January of a year. */
  function DayFromYear(y: int): int {
    365 * (y - 1970) + (y - 1969) / 4 - (y - 1901) / 100 + (y - 1601) / 400
  }

  lemma Div4(y: int)
    ensures (y - 1968) / 4 - (y - 1969) / 4 == if y % 4 == 0 then 1 else 0
  {
  }

  lemma Div100(y: int)
    ensures (y - 1900) / 100 - (y - 1901) / 100 == if y % 100 == 0 then 1 else 0
  {
  }

  lemma Div400(y: int)
    ensures (y - 1600) / 400 - (y - 1601) / 400 == if y % 400 == 0 then 1 else 0
  {
    assert (y - 1600) % 400 == y % 400;
  }

  lemma MultipleOf100(q: int)
    ensures (400 * q) % 100 == 0
  {
    assert 400 * q == 100 * (4 * q);
  }

  lemma MultipleOf4(q: int)
    ensures (100 * q) % 4 == 0
  {
    assert 100 * q == 4 * (25 * q);
  }

  lemma MultiplesNest(y: int)
    ensures (y % 400 == 0 ==> y % 100 == 0) && (y % 100 == 0 ==> y % 4 == 0)
  {
    MultipleOf100(y / 400);
    MultipleOf4(y / 100);
    assert (y % 400 == 0 ==> y == 400 * (y / 400)) && (y % 100 == 0 ==> y == 100 * (y / 100));
  }

  lemma YearLength(y: int)
    ensures DayFromYear(y + 1) - DayFromYear(y) == if IsLeap(y) then 366 else 365
  {
    Div4(y);
    Div100(y);
    Div400(y);
    MultiplesNest(y);
  }

  function YearUp(day: int, y: int): (r: int)
    requires DayFromYear(y) <= day
    ensures DayFromYear(r) <= day < DayFromYear(r + 1)
    decreases day - DayFromYear(y)
  {
    YearLength(y);
    if day < DayFromYear(y + 1) then y else YearUp(day, y + 1)
  }

  function YearDown(day: int, y: int): (r: int)
    requires day < DayFromYear(y)
    ensures DayFromYear(r) <= day < DayFromYear(r + 1)
    decreases DayFromYear(y) - day
  {
    YearLength(y - 1);
    if DayFromYear(y - 1) <= day then y - 1 else YearDown(day, y - 1)
  }

  /** The year a day falls in. */
  function YearOf(day: int): (r: int)
    ensures DayFromYear(r) <= day < DayFromYear(r + 1)
  {
    if day >= DayFromYear(1970) then YearUp(day, 1970) else YearDown(day, 1970)
  }

  lemma {:induction false} YearsGrow(y: int, z: int)
    requires y <= z
    ensures DayFromYear(y) + 365 * (z - y) <= DayFromYear(z)
    decreases z - y
  {
    if y < z {
      YearLength(y);
      YearsGrow(y + 1, z);
    }
  }

  lemma YearUnique(day: int, y: int)
    requires DayFromYear(y) <= day < DayFromYear(y + 1)
    ensures YearOf(day) == y
  {
    hide DayFromYear, YearOf;
    var r := YearOf(day);
    if r < y { YearsGrow(r + 1, y); }
    if y < r { YearsGrow(y + 1, r); }
  }

  /** Days of the year before a month, months counted from 1; month 13 stands for the end of the year. */
  function MonthStart(m: int, leap: bool): int
    requires 1 <= m <= 13
  {
    var l := if leap then 1 else 0;
    if m == 1 then 0 else if m == 2 then 31
    else l + if m == 3 then 59 else if m == 4 then 90 else if m == 5 then 120 else if m == 6 then 151
    else if m == 7 then 181 else if m == 8 then 212 else if m == 9 then 243 else if m == 10 then 273
    else if m == 11 then 304 else if m == 12 then 334 else 365
  }

  function MonthLength(m: int, leap: bool): int
    requires 1 <= m <= 12
  {
    MonthStart(m + 1, leap) - MonthStart(m, leap)
  }

  function MonthFrom(d: int, leap: bool, m: int): (r: int)
    requires 1 <= m <= 12 && MonthStart(m, leap) <= d < MonthStart(13, leap)
    ensures 1 <= r <= 12 && MonthStart(r, leap) <= d < MonthStart(r + 1, leap)
    decreases 12 - m
  {
    if d < MonthStart(m + 1, leap) then m else MonthFrom(d, leap, m + 1)
  }

  lemma MonthUnique(d: int, leap: bool, m: int)
    requires 1 <= m <= 12 && MonthStart(m, leap) <= d < MonthStart(m + 1, leap)
    ensures 0 <= d < MonthStart(13, leap) && MonthFrom(d, leap, 1) == m
  {
    assert forall a :: 1 <= a <= m ==> MonthStart(a, leap) <= MonthStart(m, leap);
    assert forall a :: m < a <= 13 ==> MonthStart(m + 1, leap) <= MonthStart(a, leap);
  }

  function DayOf(t: int): int { t / MINUTES_IN_A_DAY }

  function Minutes(t: int): int { t % 60 }

  function Hours(t: int): int { t / 60 % 24 }

  function DayWithinYear(t: int): (d: int)
    ensures 0 <= d < MonthStart(13, IsLeap(YearOf(DayOf(t))))
  {
    YearLength(YearOf(DayOf(t)));
    DayOf(t) - DayFromYear(YearOf(DayOf(t)))
  }

  function Month(t: int): (m: int)
    ensures 1 <= m <= 12
  {
    MonthFrom(DayWithinYear(t), IsLeap(YearOf(DayOf(t))), 1)
  }

  function Date(t: int): int {
    DayWithinYear(t) - MonthStart(Month(t), IsLeap(YearOf(DayOf(t)))) + 1
  }

  /** Sunday is 0; 1 January 1970 was a Thursday. */
  function Weekday(t: int): int { (DayOf(t) + 4) % 7 }

  /** The days of the week follow one another, from Thursday, 1 January 1970. */
  lemma WeekdayCycle(t: int)
    ensures Weekday(t + MINUTES_IN_A_DAY) == (if Weekday(t) == 6 then 0 else Weekday(t) + 1) && 0 <= Weekday(t) <= 6
    ensures 0 <= t < MINUTES_IN_A_DAY ==> Weekday(t) == 4
  {
    assert DayOf(t + MINUTES_IN_A_DAY) == DayOf(t) + 1;
  }

  lemma MonthLengths(m: int, leap: bool)
    requires 1 <= m <= 12
    ensures MonthLength(m, leap) == if m == 2 then (if leap then 29 else 28) else if m in {4, 6, 9, 11} then 30 else 31
  {
  }

  /** A date every year has: any real date but 29 February. */
  predicate IsYearlyDate(m: int, d: int) {
    1 <= m <= 12 && 1 <= d <= MonthLength(m, false)
  }

  /** The minute `min` of hour `h` of a date of a year. */
  function TimeOf(y: int, m: int, d: int, h: int, min: int): int
    requires 1 <= m <= 12
  {
    (DayFromYear(y) + MonthStart(m, IsLeap(y)) + d - 1) * MINUTES_IN_A_DAY + h * 60 + min
  }

  lemma TimeParts(day: int, h: int, min: int)
    requires 0 <= h < 24 && 0 <= min < 60
    ensures var t := day * MINUTES_IN_A_DAY + h * 60 + min; DayOf(t) == day && Hours(t) == h && Minutes(t) == min
  {
    var t := day * MINUTES_IN_A_DAY + h * 60 + min;
    assert t / 60 == day * 24 + h;
  }

  lemma DateParts(t: int, y: int, m: int, d: int)
    requires 1 <= m <= 12 && 1 <= d <= MonthLength(m, IsLeap(y))
        && DayOf(t) == DayFromYear(y) + MonthStart(m, IsLeap(y)) + d - 1
    ensures YearOf(DayOf(t)) == y && Month(t) == m && Date(t) == d
  {
    hide DayOf, DayFromYear, MonthFrom, YearOf, IsLeap, MonthStart;
    var leap := IsLeap(y);
    MonthUnique(MonthStart(m, leap) + d - 1, leap, m);
    YearLength(y);
    MonthStart13(leap);
    YearUnique(DayOf(t), y);
  }

  lemma MonthStart13(leap: bool)
    ensures MonthStart(13, leap) == if leap then 366 else 365
  {
  }

  /** Reading the fields of a composed time gives back its parts. */
  lemma TimeOfFields(y: int, m: int, d: int, h: int, min: int)
    requires 1 <= m <= 12 && 1 <= d <= MonthLength(m, IsLeap(y)) && 0 <= h < 24 && 0 <= min < 60
    ensures var t := TimeOf(y, m, d, h, min);
      YearOf(DayOf(t)) == y && Month(t) == m && Date(t) == d && Hours(t) == h && Minutes(t) == min
  {
    hide DayOf, Hours, Minutes, DayFromYear, MonthStart, YearOf, IsLeap, Month, Date, MonthLength;
    TimeParts(DayFromYear(y) + MonthStart(m, IsLeap(y)) + d - 1, h, min);
    DateParts(TimeOf(y, m, d, h, min), y, m, d);
  }

  /** Composing the fields of a time gives back the time, and its date is a date of its year. */
  lemma FieldsOfTime(t: int)
    ensures 1 <= Date(t) <= MonthLength(Month(t), IsLeap(YearOf(DayOf(t))))
    ensures 0 <= Hours(t) < 24 && 0 <= Minutes(t) < 60
    ensures t == TimeOf(YearOf(DayOf(t)), Month(t), Date(t), Hours(t), Minutes(t))
  {
    assert t == t / 60 * 60 + t % 60;
    assert t / 60 == t / 60 / 24 * 24 + t / 60 % 24;
    assert t / 60 / 24 == t / 1440;
  }

  /** From one year to the next a yearly date moves by at most 366 days. */
  lemma YearlyStep(y: int, m: int, d: int, h: int, min: int)
    requires IsYearlyDate(m, d)
    ensures 365 * MINUTES_IN_A_DAY <= TimeOf(y + 1, m, d, h, min) - TimeOf(y, m, d, h, min) <= 366 * MINUTES_IN_A_DAY
  {
    YearLength(y);
    assert IsLeap(y) ==> !IsLeap(y + 1);
  }
}
