/** datetime.fromtimestamp in UTC for whole seconds: the calendar counted day by day from 1970. */
module Calendar {
  import opened Hashing

  const SECONDS_PER_DAY: nat := 86400

  /** Enough days to stay before the year 10000, however short the months. */
  const MAX_DAYS: nat := 2697744

  datatype Date = Date(year: nat, month: nat, day: nat) {
    predicate Valid() { 1970 <= year && 1 <= month <= 12 && 1 <= day <= MonthLength(year, month) }

    function Ordinal(): nat { (year * 12 + month) * 32 + day }
  }

  predicate LeapYear(year: nat) { year % 4 == 0 && (year % 100 != 0 || year % 400 == 0) }

  function MonthLength(year: nat, month: nat): (n: nat)
    ensures 28 <= n <= 31
  {
    if month == 2 then (if LeapYear(year) then 29 else 28)
    else if month == 4 || month == 6 || month == 9 || month == 11 then 30
    else 31
  }

  function NextDay(d: Date): (r: Date)
    requires d.Valid()
    ensures r.Valid() && r.Ordinal() > d.Ordinal()
  {
    if d.day < MonthLength(d.year, d.month) then d.(day := d.day + 1)
    else if d.month < 12 then Date(d.year, d.month + 1, 1)
    else Date(d.year + 1, 1, 1)
  }

  function DateOf(days: nat): (r: Date)
    ensures r.Valid() && 28 * ((r.year - 1970) * 12 + r.month - 1) + r.day - 1 <= days
  {
    if days == 0 then Date(1970, 1, 1) else NextDay(DateOf(days - 1))
  }

  /** The moment this many seconds after the epoch. */
  function At(seconds: nat): (t: Instant)
    requires seconds < MAX_DAYS * SECONDS_PER_DAY
    ensures t.micro == 0
  {
    var d := DateOf(seconds / SECONDS_PER_DAY);
    var s := seconds % SECONDS_PER_DAY;
    Utc(d.year, d.month, d.day, s / 3600, s % 3600 / 60, s % 60, 0)
  }

  lemma {:induction false} LaterDate(a: nat, b: nat)
    requires a < b
    ensures DateOf(a).Ordinal() < DateOf(b).Ordinal()
  {
    if a + 1 < b { LaterDate(a, b - 1); }
  }

  lemma TimeOfDay(s: nat)
    requires s < SECONDS_PER_DAY
    ensures s == s / 3600 * 3600 + s % 3600 / 60 * 60 + s % 60
  {
  }

  /** No two seconds have the same calendar time. */
  lemma AtInjective(a: nat, b: nat)
    requires a < MAX_DAYS * SECONDS_PER_DAY && b < MAX_DAYS * SECONDS_PER_DAY && At(a) == At(b)
    ensures a == b
  {
    var x, y := a / SECONDS_PER_DAY, b / SECONDS_PER_DAY;
    if x < y { LaterDate(x, y); }
    if y < x { LaterDate(y, x); }
    TimeOfDay(a % SECONDS_PER_DAY);
    TimeOfDay(b % SECONDS_PER_DAY);
  }

  // ----------------------------------------------------- the Gregorian calendar

  /** Leap years before this year. */
  function LeapYearsBefore(year: nat): int
    requires year >= 1
  {
    (year - 1) / 4 - (year - 1) / 100 + (year - 1) / 400
  }

  /** Days of a common year before the first of a month. */
  function DaysBeforeMonth(month: nat): nat {
    if month <= 1 then 0 else if month == 2 then 31 else if month == 3 then 59 else if month == 4 then 90
    else if month == 5 then 120 else if month == 6 then 151 else if month == 7 then 181 else if month == 8 then 212
    else if month == 9 then 243 else if month == 10 then 273 else if month == 11 then 304 else 334
  }

  /** The number of days from the first of January 1970 to a date, by the usual formula; 477 leap years came
      before 1970. */
  function DaysSince1970(year: nat, month: nat, day: nat): int
    requires year >= 1
  {
    365 * (year - 1970) + LeapYearsBefore(year) - 477 + DaysBeforeMonth(month) +
    (if month > 2 && year % 4 == 0 && (year % 100 != 0 || year % 400 == 0) then 1 else 0) + day - 1
  }

  lemma NextYear(year: nat)
    requires year >= 1
    ensures LeapYearsBefore(year + 1) == LeapYearsBefore(year) + if LeapYear(year) then 1 else 0
  {
    assert (year - 1) / 4 == if year % 4 == 0 then year / 4 - 1 else year / 4;
    assert (year - 1) / 100 == if year % 100 == 0 then year / 100 - 1 else year / 100;
    assert (year - 1) / 400 == if year % 400 == 0 then year / 400 - 1 else year / 400;
  }

  lemma OneDayLater(d: Date)
    requires d.Valid()
    ensures var e := NextDay(d); DaysSince1970(e.year, e.month, e.day) == DaysSince1970(d.year, d.month, d.day) + 1
  {
    NextYear(d.year);
  }

  /** The date counted day by day is the one of the formula. */
  lemma {:induction false} DateIs(days: nat)
    ensures var d := DateOf(days); DaysSince1970(d.year, d.month, d.day) == days
  {
    if days > 0 {
      DateIs(days - 1);
      OneDayLater(DateOf(days - 1));
    }
  }

  /** The calendar time of a number of seconds since 1970, by the formula. */
  lemma AtIs(seconds: nat)
    requires seconds < MAX_DAYS * SECONDS_PER_DAY
    ensures var t := At(seconds);
            DaysSince1970(t.year, t.month, t.day) * 86_400 + t.hour * 3600 + t.minute * 60 + t.second == seconds
  {
    DateIs(seconds / SECONDS_PER_DAY);
    TimeOfDay(seconds % SECONDS_PER_DAY);
  }
}
