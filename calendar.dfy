/** Dates and times as plain numbers.

    A date is a day number: the number of days since 0001-01-01 of the proleptic
    Gregorian calendar, which was a Monday. The current time is a day number and a
    minute of that day. Both systems compare the current time only with cutoffs that
    fall on a whole minute (15:00:00.000), so dropping seconds and milliseconds does
    not change any comparison. */
module Calendar {

  type Day = int

  type MinuteOfDay = m: int | 0 <= m < 1440

  /** A point in local time: a day and the minute within it. */
  datatype Instant = Instant(day: Day, minute: MinuteOfDay)

  // Day-of-week numbering of JavaScript's Date.getDay(): 0 = Sunday … 6 = Saturday.
  const SUNDAY := 0
  const MONDAY := 1
  const TUESDAY := 2
  const WEDNESDAY := 3
  const THURSDAY := 4
  const FRIDAY := 5
  const SATURDAY := 6

  /** Date.getDay() of a day number; day 0 is a Monday. */
  function DayOfWeek(d: Day): (w: int)
    ensures 0 <= w < 7
    ensures w == MONDAY <==> d % 7 == 0
  {
    (d + 1) % 7
  }

  lemma DayOfWeekPeriodic(d: Day, k: int)
    ensures DayOfWeek(d + 7 * k) == DayOfWeek(d)
  {
  }

  /** Date.getHours() */
  function Hour(t: Instant): (h: int)
    ensures 0 <= h < 24
    ensures h * 60 <= t.minute < h * 60 + 60
  {
    t.minute / 60
  }

  /** `a < b` on JavaScript dates. */
  predicate Before(a: Instant, b: Instant) {
    a.day < b.day || (a.day == b.day && a.minute < b.minute)
  }

  /** `new Date(day)` followed by `setHours(hour, 0, 0, 0)`. */
  function AtHour(day: Day, hour: int): (t: Instant)
    requires 0 <= hour < 24
    ensures t.day == day && Hour(t) == hour && t.minute % 60 == 0
  {
    Instant(day, hour * 60)
  }

  // ---------------------------------------------------------------------------
  // Gregorian years, needed for the ISO 8601 week number.

  predicate IsLeap(y: int) {
    y % 4 == 0 && (y % 100 != 0 || y % 400 == 0)
  }

  /** Day number of January 1st of year `y`. */
  function Jan1(y: int): Day {
    365 * (y - 1) + (y - 1) / 4 - (y - 1) / 100 + (y - 1) / 400
  }

  /** A year is 366 days long when it is a leap year and 365 days otherwise. */
  lemma Jan1Step(y: int)
    ensures Jan1(y + 1) == Jan1(y) + (if IsLeap(y) then 366 else 365)
  {
    var k := y - 1;
    assert y / 4 - k / 4 == (if y % 4 == 0 then 1 else 0);
    assert y / 100 - k / 100 == (if y % 100 == 0 then 1 else 0);
    assert y / 400 - k / 400 == (if y % 400 == 0 then 1 else 0);
  }

  /** January 1st moves strictly forward with the year, at least 365 days a year. */
  lemma {:induction false} Jan1Monotone(y: int, z: int)
    requires y <= z
    ensures Jan1(y) + 365 * (z - y) <= Jan1(z)
    decreases z - y
  {
    if y < z {
      Jan1Step(z - 1);
      Jan1Monotone(y, z - 1);
    }
  }

  function YearUp(d: Day, y: int): (r: int)
    requires Jan1(y) <= d
    ensures Jan1(r) <= d < Jan1(r + 1)
    decreases d - Jan1(y)
  {
    Jan1Step(y);
    if d < Jan1(y + 1) then y else YearUp(d, y + 1)
  }

  function YearDown(d: Day, y: int): (r: int)
    requires d < Jan1(y + 1)
    ensures Jan1(r) <= d < Jan1(r + 1)
    decreases Jan1(y + 1) - d
  {
    Jan1Step(y);
    if Jan1(y) <= d then y else YearDown(d, y - 1)
  }

  /** The Gregorian year that day `d` falls in (Date.getFullYear()). */
  function YearOf(d: Day): (y: int)
    ensures Jan1(y) <= d < Jan1(y + 1)
  {
    var guess := d / 366 + 1;
    if Jan1(guess) <= d then YearUp(d, guess)
    else (Jan1Step(guess); YearDown(d, guess))
  }

  /** The year of a day is the only year whose first day is not after it and whose
      successor's first day is after it. */
  lemma YearOfUnique(d: Day, y: int)
    requires Jan1(y) <= d < Jan1(y + 1)
    ensures YearOf(d) == y
  {
    var r := YearOf(d);
    if r < y {
      Jan1Monotone(r + 1, y);
    } else if y < r {
      Jan1Monotone(y + 1, r);
    }
  }
}
