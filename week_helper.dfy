/** The fixed batch schedule of the database-backed application
    (utils/weekHelper.js): batch 1 works Monday to Wednesday and batch 2 Thursday and
    Friday, the same every week; non-team-day bookings open at 15:00. */
module WeekHelper {
  import opened Common
  import opened Calendar

  /** The days each batch is in the office. */
  datatype Schedule = Schedule(batch1Days: seq<int>, batch2Days: seq<int>)

  /** getWeekNumber: the schedule does not rotate, so every date is in week 1. */
  function GetWeekNumber(d: Day): (n: int)
    ensures n == 1
  {
    1
  }

  /** getSchedule: the same split whatever the date. */
  function GetSchedule(d: Day): (s: Schedule)
    ensures forall w :: w in s.batch1Days <==> MONDAY <= w <= WEDNESDAY
    ensures forall w :: w in s.batch2Days <==> THURSDAY <= w <= FRIDAY
  {
    Schedule([MONDAY, TUESDAY, WEDNESDAY], [THURSDAY, FRIDAY])
  }

  /** isTeamDay: is `d` an office day for `batch`? Only batches 1 and 2 have any. */
  function IsTeamDay(batch: int, d: Day): (r: bool)
    ensures r <==> ((batch == 1 && MONDAY <= DayOfWeek(d) <= WEDNESDAY) ||
                    (batch == 2 && THURSDAY <= DayOfWeek(d) <= FRIDAY))
  {
    var dayOfWeek := DayOfWeek(d);
    if batch == 1 then dayOfWeek in [MONDAY, TUESDAY, WEDNESDAY]
    else if batch == 2 then dayOfWeek in [THURSDAY, FRIDAY]
    else false
  }

  /** canBookFloating: a non-team-day employee may book from 15:00 on. */
  function CanBookFloating(now: Instant): (r: bool)
    ensures r <==> now.minute >= 15 * 60
  {
    Hour(now) >= 15
  }

  /** isWeekday: Monday to Friday. */
  function IsWeekday(d: Day): (r: bool)
    ensures r <==> DayOfWeek(d) != SUNDAY && DayOfWeek(d) != SATURDAY
  {
    var day := DayOfWeek(d);
    day >= 1 && day <= 5
  }

  const DAY_NAMES: seq<string> :=
    ["Sunday", "Monday", "Tuesday", "Wednesday", "Thursday", "Friday", "Saturday"]

  /** getDayName: `names[dayNum]`, which is undefined outside 0..6. */
  function GetDayName(dayNum: int): (r: Option<string>)
    ensures r.Some? <==> 0 <= dayNum < 7
    ensures r.Some? ==> r.value == DAY_NAMES[dayNum]
  {
    if 0 <= dayNum < |DAY_NAMES| then Some(DAY_NAMES[dayNum]) else None
  }

  /** The names follow the numbering of getDay(): Sunday is 0 and Saturday is 6. */
  lemma DayNamesInOrder()
    ensures GetDayName(SUNDAY) == Some("Sunday") && GetDayName(MONDAY) == Some("Monday")
    ensures GetDayName(TUESDAY) == Some("Tuesday") && GetDayName(WEDNESDAY) == Some("Wednesday")
    ensures GetDayName(THURSDAY) == Some("Thursday") && GetDayName(FRIDAY) == Some("Friday")
    ensures GetDayName(SATURDAY) == Some("Saturday")
  {
  }

  /** Array.prototype.join: elements separated by `sep`. */
  function Join(parts: seq<string>, sep: string): string {
    if parts == [] then ""
    else if |parts| == 1 then parts[0]
    else parts[0] + sep + Join(parts[1..], sep)
  }

  /** join() writes an undefined element as the empty string. */
  function NameOrEmpty(dayNum: int): string {
    match GetDayName(dayNum)
    case Some(name) => name
    case None => ""
  }

  /** `days.map(d => getDayName(d))` */
  function DayNames(days: seq<int>): seq<string> {
    if days == [] then [] else [NameOrEmpty(days[0])] + DayNames(days[1..])
  }

  /** getBatchScheduleDescription: the names of the batch's days, comma separated;
      any batch other than 1 is given batch 2's days. */
  function GetBatchScheduleDescription(batch: int, d: Day): (r: string)
    ensures batch == 1 ==> r == "Monday, Tuesday, Wednesday"
    ensures batch != 1 ==> r == "Thursday, Friday"
  {
    var schedule := GetSchedule(d);
    var days := if batch == 1 then schedule.batch1Days else schedule.batch2Days;
    assert DayNames([WEDNESDAY]) == ["Wednesday"];
    assert DayNames([TUESDAY, WEDNESDAY]) == ["Tuesday", "Wednesday"];
    assert DayNames([MONDAY, TUESDAY, WEDNESDAY]) == ["Monday", "Tuesday", "Wednesday"];
    assert Join(["Wednesday"], ", ") == "Wednesday";
    assert Join(["Tuesday", "Wednesday"], ", ") == "Tuesday" + ", " + "Wednesday";
    assert Join(["Monday", "Tuesday", "Wednesday"], ", ") == "Monday" + ", " + ("Tuesday" + ", " + "Wednesday");
    assert DayNames([FRIDAY]) == ["Friday"];
    assert DayNames([THURSDAY, FRIDAY]) == ["Thursday", "Friday"];
    assert Join(["Friday"], ", ") == "Friday";
    assert Join(["Thursday", "Friday"], ", ") == "Thursday" + ", " + "Friday";
    Join(DayNames(days), ", ")
  }

  // ---------------------------------------------------------------------------
  // Properties of the fixed schedule.

  /** On a weekday exactly one batch is in the office; at the weekend neither is. */
  lemma BatchesPartitionWeekdays(d: Day)
    ensures IsWeekday(d) ==> IsTeamDay(1, d) != IsTeamDay(2, d)
    ensures !IsWeekday(d) ==> !IsTeamDay(1, d) && !IsTeamDay(2, d)
  {
  }

  /** A batch number outside {1, 2} never has a team day. */
  lemma UnknownBatchNeverInOffice(batch: int, d: Day)
    requires batch != 1 && batch != 2
    ensures !IsTeamDay(batch, d)
  {
  }

  /** isTeamDay agrees with the day lists of getSchedule. */
  lemma TeamDayMatchesSchedule(d: Day)
    ensures IsTeamDay(1, d) <==> DayOfWeek(d) in GetSchedule(d).batch1Days
    ensures IsTeamDay(2, d) <==> DayOfWeek(d) in GetSchedule(d).batch2Days
  {
  }

  /** Every team day is a weekday. */
  lemma TeamDayIsWeekday(batch: int, d: Day)
    requires IsTeamDay(batch, d)
    ensures IsWeekday(d)
  {
  }
}
