/** The rotating batch schedule of the stand-alone SeatFlow server (mayank/server.js).
    Weeks are numbered as in ISO 8601 (section 3.2.2: weeks start on Monday and week 1
    of a year is the week holding its first Thursday). In an odd week batch 1 owns
    Monday to Wednesday and batch 2 Thursday and Friday; in an even week they swap. */
module SeatFlowSchedule {
  import opened Calendar

  /** `getUTCDay() || 7`: Monday = 1 … Sunday = 7. */
  function IsoDayOfWeek(d: Day): (w: int)
    ensures 1 <= w <= 7
    ensures w == DayOfWeek(d) || (w == 7 && DayOfWeek(d) == SUNDAY)
  {
    var w := DayOfWeek(d);
    if w == 0 then 7 else w
  }

  /** Math.ceil(a / b) for a positive divisor. */
  function CeilDiv(a: int, b: int): int
    requires b > 0
  {
    -((-a) / b)
  }

  /** The Thursday of the Monday-to-Sunday week holding `d`. */
  function ThursdayOf(d: Day): Day {
    d + 4 - IsoDayOfWeek(d)
  }

  /** getWeekNumber: the ISO 8601 week number, counted from January 1st of the year
      that holds the Thursday of `d`'s week. */
  function GetWeekNumber(d: Day): (w: int)
    ensures 1 <= w <= 53
  {
    WeekOfThursday(ThursdayOf(d))
  }

  /** Week number of the week whose Thursday is `thursday`. */
  function WeekOfThursday(thursday: Day): (w: int)
    ensures 1 <= w <= 53
  {
    var yearStart := Jan1(YearOf(thursday));
    Jan1Step(YearOf(thursday));
    CeilDiv(thursday - yearStart + 1, 7)
  }

  /** weekParity: 1 in odd weeks and 2 in even weeks. */
  function WeekParity(d: Day): (p: int)
    ensures p == 1 || p == 2
  {
    ParityOfWeek(GetWeekNumber(d))
  }

  function ParityOfWeek(w: int): (p: int)
    ensures p == 1 || p == 2
    ensures p == 1 <==> w % 2 == 1
  {
    if w % 2 == 1 then 1 else 2
  }

  /** batchForDay: the batch that owns `d`. Saturday and Sunday fall in the
      Thursday–Friday branch; callers rule weekends out first. */
  function BatchForDay(d: Day): (b: int)
    ensures b == 1 || b == 2
  {
    OwnerFor(DayOfWeek(d), WeekParity(d))
  }

  /** The owning batch for a day of the week in a week of the given parity. */
  function OwnerFor(dow: int, parity: int): (b: int)
    ensures b == 1 || b == 2
    ensures b == 1 <==> ((parity == 1) == (MONDAY <= dow <= WEDNESDAY))
  {
    if parity == 1 then
      (if dow >= 1 && dow <= 3 then 1 else 2)
    else
      (if dow >= 1 && dow <= 3 then 2 else 1)
  }

  /** isWeekend */
  function IsWeekend(d: Day): (r: bool)
    ensures r <==> !(MONDAY <= DayOfWeek(d) <= FRIDAY)
  {
    var w := DayOfWeek(d);
    w == 0 || w == 6
  }

  // ---------------------------------------------------------------------------
  // Properties of the rotation.

  /** All seven days of a Monday-to-Sunday week get the same week number. */
  lemma WeekNumberConstantOverWeek(monday: Day, k: int)
    requires DayOfWeek(monday) == MONDAY && 0 <= k < 7
    ensures ThursdayOf(monday + k) == monday + 3
    ensures GetWeekNumber(monday + k) == GetWeekNumber(monday)
  {
    assert monday % 7 == 0;
    assert (monday + k + 1) % 7 == (k + 1) % 7;
  }

  /** Within one ISO week the owning batch is the same Monday to Wednesday, and the
      other batch owns Thursday and Friday. */
  lemma WeekSplitsBetweenBatches(monday: Day, k: int)
    requires DayOfWeek(monday) == MONDAY && 0 <= k < 5
    ensures k < 3 ==> BatchForDay(monday + k) == BatchForDay(monday)
    ensures k >= 3 ==> BatchForDay(monday + k) == 3 - BatchForDay(monday)
  {
    WeekNumberConstantOverWeek(monday, k);
    assert monday % 7 == 0;
    assert DayOfWeek(monday + k) == k + 1;
  }

  /** Odd weeks give Monday–Wednesday to batch 1 and Thursday–Friday to batch 2;
      even weeks swap them. */
  lemma RotationByParity(d: Day)
    requires MONDAY <= DayOfWeek(d) <= FRIDAY
    ensures GetWeekNumber(d) % 2 == 1 ==>
      BatchForDay(d) == (if DayOfWeek(d) <= WEDNESDAY then 1 else 2)
    ensures GetWeekNumber(d) % 2 == 0 ==>
      BatchForDay(d) == (if DayOfWeek(d) <= WEDNESDAY then 2 else 1)
  {
  }

  /** The week number goes up by one from one week to the next, unless the next
      week's Thursday is in a new year, in which case it starts again at 1. */
  lemma WeekNumberNextWeek(d: Day)
    ensures YearOf(ThursdayOf(d) + 7) == YearOf(ThursdayOf(d)) ==>
      GetWeekNumber(d + 7) == GetWeekNumber(d) + 1
    ensures YearOf(ThursdayOf(d) + 7) != YearOf(ThursdayOf(d)) ==>
      GetWeekNumber(d + 7) == 1
  {
    var t := ThursdayOf(d);
    DayOfWeekPeriodic(d, 1);
    assert IsoDayOfWeek(d + 7) == IsoDayOfWeek(d);
    assert ThursdayOf(d + 7) == t + 7;
    NextThursday(t);
  }

  lemma CeilDivStep(a: int)
    ensures CeilDiv(a + 7, 7) == CeilDiv(a, 7) + 1
  {
    assert -(a + 7) == -a - 7;
  }

  lemma WeekOfThursdayIn(t: Day, y: int)
    requires Jan1(y) <= t < Jan1(y + 1)
    ensures YearOf(t) == y
    ensures WeekOfThursday(t) == CeilDiv(t - Jan1(y) + 1, 7)
  {
    YearOfUnique(t, y);
  }

  lemma NextThursday(t: Day)
    ensures YearOf(t + 7) == YearOf(t) ==> WeekOfThursday(t + 7) == WeekOfThursday(t) + 1
    ensures YearOf(t + 7) != YearOf(t) ==> WeekOfThursday(t + 7) == 1
  {
    var y := YearOf(t);
    WeekOfThursdayIn(t, y);
    Jan1Step(y);
    if t + 7 < Jan1(y + 1) {
      WeekOfThursdayIn(t + 7, y);
      CeilDivStep(t - Jan1(y) + 1);
    } else {
      Jan1Step(y + 1);
      WeekOfThursdayIn(t + 7, y + 1);
    }
  }

  /** Inside one ISO year the owner of a weekday alternates from week to week. */
  lemma OwnerAlternatesWithinYear(d: Day)
    requires MONDAY <= DayOfWeek(d) <= FRIDAY
    requires YearOf(ThursdayOf(d) + 7) == YearOf(ThursdayOf(d))
    ensures BatchForDay(d + 7) == 3 - BatchForDay(d)
  {
    WeekNumberNextWeek(d);
    ParityFlips(d);
    SameDayNextWeek(d);
  }

  lemma SameDayNextWeek(d: Day)
    requires WeekParity(d + 7) == 3 - WeekParity(d)
    ensures BatchForDay(d + 7) == 3 - BatchForDay(d)
  {
    var dow := DayOfWeek(d);
    DayOfWeekPeriodic(d, 1);
    var p, q := WeekParity(d), WeekParity(d + 7);
    assert BatchForDay(d) == OwnerFor(dow, p);
    assert BatchForDay(d + 7) == OwnerFor(dow, q);
    OwnerSwapsWithParity(dow, p, q);
  }

  lemma OwnerSwapsWithParity(dow: int, p: int, q: int)
    requires (p == 1 || p == 2) && q == 3 - p
    ensures OwnerFor(dow, q) == 3 - OwnerFor(dow, p)
  {
  }

  lemma ParityFlips(d: Day)
    requires GetWeekNumber(d + 7) == GetWeekNumber(d) + 1
    ensures WeekParity(d + 7) == 3 - WeekParity(d)
  {
    ConsecutiveWeeksParity(GetWeekNumber(d), GetWeekNumber(d + 7));
  }

  lemma ConsecutiveWeeksParity(w: int, next: int)
    requires next == w + 1
    ensures ParityOfWeek(next) == 3 - ParityOfWeek(w)
  {
  }

  /** The rotation does not alternate across a 53-week year: 2020 ends with ISO
      week 53 (Monday 2020-12-28, day 737786) and 2021 starts with week 1 (Monday
      2021-01-04), both odd, so batch 1 owns Monday to Wednesday two weeks running. */
  lemma RotationRepeatsAfterWeek53()
    ensures DayOfWeek(737786) == MONDAY
    ensures GetWeekNumber(737786) == 53 && GetWeekNumber(737786 + 7) == 1
    ensures BatchForDay(737786) == 1 && BatchForDay(737786 + 7) == 1
  {
    assert Jan1(2020) == 737424;
    assert Jan1(2021) == 737790;
    assert Jan1(2022) == 738155;
    assert ThursdayOf(737786) == 737789;
    assert ThursdayOf(737793) == 737796;
    YearOfUnique(737789, 2020);
    YearOfUnique(737796, 2021);
  }
}
