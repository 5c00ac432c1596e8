/**
 * Dates as integer day numbers. Day 0 is 1970-01-01, the day of the
 * JavaScript epoch, which was a Thursday; so `WeekdayOf` numbers the days
 * of the week as `Date.prototype.getDay` does (0 = Sunday ... 6 = Saturday).
 * All dates are taken in one time zone (UTC).
 */
module Calendar {

  const Sunday := 0
  const Saturday := 6

  function WeekdayOf(day: int): (w: nat)
    ensures w < 7
  {
    (day + 4) % 7
  }

  /** The moment a scraper reads the clock: a day number and the hour of that day. */
  datatype Clock = Clock(day: int, hour: nat) {
    ghost predicate Valid() { hour < 24 }
  }

  /**
   * The calendar day of the moment `n` hours before `now`, as
   * `now.setHours(now.getHours() - n)` computes it.
   */
  function DayHoursBefore(now: Clock, n: nat): (d: int)
    requires now.Valid()
    ensures n <= now.hour ==> d == now.day
    ensures n > now.hour ==> d == now.day - 1 - (n - now.hour - 1) / 24
  {
    (now.day * 24 + now.hour - n) / 24
  }

  /** A date as the parser of absolute dates yields it: year, month 1..12, day of month. */
  datatype CivilDate = CivilDate(year: int, month: int, dayOfMonth: int)

  /**
   * The day number of a civil date in the proleptic Gregorian calendar
   * (Howard Hinnant's `days_from_civil`). A day of month past the end of its
   * month rolls over into the next month, as `Date.prototype.setFullYear`
   * does with 29 February of a common year.
   */
  function DaysFromCivil(c: CivilDate): int {
    var y := if c.month <= 2 then c.year - 1 else c.year;
    var mp := (c.month + 9) % 12;
    var doy := (153 * mp + 2) / 5 + c.dayOfMonth - 1;
    MarchYearStart(y) + doy - 719468
  }

  /** Days from 0000-03-01 to the 1st of March of year `y`; years are counted from March. */
  function MarchYearStart(y: int): int {
    var era := y / 400;
    var yoe := y - era * 400;
    era * 146097 + yoe * 365 + yoe / 4 - yoe / 100
  }

  /** `setFullYear(getFullYear() - 1)` on a civil date. */
  function PreviousYear(c: CivilDate): CivilDate {
    c.(year := c.year - 1)
  }

  /** Moving a date back one year moves it back by a whole year of 365 or 366 days. */
  lemma PreviousYearIsAYearEarlier(c: CivilDate)
    ensures DaysFromCivil(c) - DaysFromCivil(PreviousYear(c)) in {365, 366}
  {
    var y := if c.month <= 2 then c.year - 1 else c.year;
    MarchYearLength(y);
  }

  lemma MarchYearLength(y: int)
    ensures MarchYearStart(y) - MarchYearStart(y - 1) in {365, 366}
  {
    var era := y / 400;
    var yoe := y - era * 400;
    assert 0 <= yoe < 400;
    if yoe == 0 {
      assert (y - 1) / 400 == era - 1;
      assert MarchYearStart(y) == era * 146097;
      assert MarchYearStart(y - 1) == (era - 1) * 146097 + 399 * 365 + 99 - 3;
    } else {
      assert (y - 1) / 400 == era;
      var a, b := yoe / 4, (yoe - 1) / 4;
      var c, d := yoe / 100, (yoe - 1) / 100;
      assert a - b in {0, 1};
      assert c - d in {0, 1};
      assert c - d == 1 ==> yoe % 100 == 0;
      assert yoe % 100 == 0 ==> a - b == 1;
      assert MarchYearStart(y) - MarchYearStart(y - 1) == 365 + (a - b) - (c - d);
    }
  }
}
