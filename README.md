# Office seat booking — a verified model of the allocation rules

This project models the seat-allocation core of an office seat-booking system.
Employees belong to one of two batches, and each batch is expected in the office on its
own team days. The system has 50 seats: 40 regular seats and 10 floaters. A regular seat
that is released on a date becomes a temporary floater. Floaters open at 15:00 on the
day before the booked date; in the SQL application a temporary floater waits for that
hour only when the date is not the booker's team day.

The repository holds two separate servers, and the model keeps them apart.

- **The SQL application.** It consists of `controllers/apiController.js`,
  `controllers/bookingController.js`, `controllers/leaveController.js`, the models
  `models/bookingModel.js`, `models/leaveModel.js` and `models/seatModel.js`, and the
  fixed schedule in `utils/weekHelper.js`. Batch 1 works Monday to Wednesday and batch 2
  works Thursday and Friday, every week.
  - Its tables are fields of the class `Tables.Database`:
    - `users` is a map from id to user;
    - `seats` is a sequence of `(id, seatNumber)` rows;
    - `bookings` is a sequence of `(id, user, seat, date, status)` rows;
    - `leaves` is a set of `(user, date)` pairs;
    - `nextId` is the auto-increment key.
  - The handlers are methods on the database. Each applies a pure decision function
    (`DecideBook`, `BookGate`, `LeaveGate`, `DecideLeave`) and then performs the one
    insert, status flip or delete that the source performs.
  - Events go out through a `Broadcast.Broadcaster`, which is a set of connected clients
    with the frames delivered to each.
- **The stand-alone SeatFlow server** (`mayank/server.js`). It keeps its data in memory:
  the class `SeatFlowStore.SeatFlowData` holds the employees, the seats, the bookings and
  the activity log.
  - Its schedule rotates with the parity of the ISO 8601 week number. In odd weeks batch
    1 owns Monday to Wednesday; in even weeks the two batches swap.
  - It has no leave table and no temporary floaters. Instead, every released booking adds
    one floater to the capacity of its day.

Dates are day numbers counted from 0001-01-01, which is a Monday, so the JavaScript
`getDay()` is `(d + 1) % 7`. The current time is an `Instant(day, minute)` passed in as a
parameter.

Some behaviours of the code are easy to misread, and the model states them as written:
- **`tempFloater` ignores re-booking.** `apiController.js` sets `tempFloater`, and
  `isTempFloater` in `bookSeat`, whenever a cancelled row exists for the seat on the
  date, even after the seat is booked again (`ApiSeats.TempFloaterEvenWhenRebooked`).
- **SeatFlow's rotation follows the parity of the ISO week number.** Across the end of
  a year with 53 weeks, week 53 and the following week 1 are both odd, so the same batch
  owns Monday to Wednesday two weeks running
  (`SeatFlowSchedule.RotationRepeatsAfterWeek53`).
- **SeatFlow's cutoff covers every non-team-day booking.** SeatFlow applies the 15:00
  cutoff to every floater and to every non-team-day booking. It never lets a non-team-day
  employee take a regular seat, because it has no temporary floaters.
- **Only apiController rejects a repeated leave.** `leaveController.js` does not check for
  an existing leave (`LeaveController.DeclareLeaveTwice`); `apiController.js` does
  (`ApiController.DecideLeave`).

## Model

| member | source | states |
|---|---|---|
| WeekHelper.GetWeekNumber | utils/weekHelper.js:15-17 | the week number is 1 for every date |
| WeekHelper.GetSchedule | utils/weekHelper.js:24-29 | batch 1's days are exactly Monday to Wednesday; batch 2's are exactly Thursday and Friday |
| WeekHelper.IsTeamDay | utils/weekHelper.js:34-43 | true iff batch 1 and Monday to Wednesday, or batch 2 and Thursday or Friday |
| WeekHelper.CanBookFloating | utils/weekHelper.js:48-50 | true iff the time is 15:00 or later |
| WeekHelper.IsWeekday | utils/weekHelper.js:55-58 | true iff the day is neither Sunday nor Saturday |
| WeekHelper.GetDayName | utils/weekHelper.js:63-66 | a name exists iff the day number is in 0..6, and it is that entry of the Sunday-to-Saturday table |
| WeekHelper.DayNamesInOrder | utils/weekHelper.js:63-66 | getDay()'s 0 is named Sunday, 1 Monday, and so on to 6, Saturday |
| WeekHelper.BatchesPartitionWeekdays | utils/weekHelper.js:34-43 | on a weekday exactly one of batch 1 and batch 2 is in the office; at the weekend neither is |
| WeekHelper.UnknownBatchNeverInOffice | utils/weekHelper.js:42 | a batch other than 1 or 2 never has a team day |
| WeekHelper.TeamDayMatchesSchedule | utils/weekHelper.js:24-43 | isTeamDay agrees with the day lists of getSchedule |
| WeekHelper.TeamDayIsWeekday | utils/weekHelper.js:34-58 | every team day is a weekday |
| WeekHelper.GetBatchScheduleDescription | utils/weekHelper.js:71-75 | batch 1's description is "Monday, Tuesday, Wednesday"; every other batch gets "Thursday, Friday" |
| Calendar.DayOfWeek | utils/weekHelper.js:35 | the JavaScript day of week, in 0..6, with Monday exactly on multiples of 7 |
| Calendar.DayOfWeekPeriodic | utils/weekHelper.js:35 | the day of week repeats every 7 days |
| Calendar.AtHour | controllers/apiController.js:246-248 | `setHours(h, 0, 0, 0)` gives the same day, hour h and a whole minute |
| Calendar.YearOf | mayank/server.js:108 | the year of a day is the one whose 1 January starts the span containing it |
| Calendar.YearOfUnique | mayank/server.js:108 | that year is unique |
| Calendar.Jan1Step | mayank/server.js:108 | consecutive New Year's days are 365 or 366 days apart, by the Gregorian leap rule |
| SeatFlowSchedule.IsoDayOfWeek | mayank/server.js:106 | `getUTCDay() \|\| 7`: Sunday becomes 7 and other days keep their number |
| SeatFlowSchedule.GetWeekNumber | mayank/server.js:104-110 | the ISO 8601 week number is in 1..53 |
| SeatFlowSchedule.WeekOfThursday | mayank/server.js:107-109 | the week number of a Thursday is in 1..53 |
| SeatFlowSchedule.WeekNumberConstantOverWeek | mayank/server.js:104-110 | all seven days from a Monday share that week's Thursday and week number |
| SeatFlowSchedule.NextThursday | mayank/server.js:107-109 | the next Thursday has week number plus one in the same year, and 1 in the next year |
| SeatFlowSchedule.WeekNumberNextWeek | mayank/server.js:104-110 | the same, stated for any day and the same day a week later |
| SeatFlowSchedule.WeekParity | mayank/server.js:112-114 | the parity is 1 or 2 |
| SeatFlowSchedule.ParityOfWeek | mayank/server.js:113 | the parity is 1 exactly for odd week numbers |
| SeatFlowSchedule.ParityFlips | mayank/server.js:112-114 | when the week number goes up by one, the parity flips |
| SeatFlowSchedule.BatchForDay | mayank/server.js:121-129 | the owning batch is 1 or 2 |
| SeatFlowSchedule.OwnerFor | mayank/server.js:124-128 | batch 1 exactly when the parity is 1 and the day is Monday to Wednesday, or the parity is 2 and it is not; otherwise batch 2 |
| SeatFlowSchedule.OwnerSwapsWithParity | mayank/server.js:124-128 | the opposite parity gives the other batch |
| SeatFlowSchedule.RotationByParity | mayank/server.js:116-129 | in odd weeks batch 1 owns Monday to Wednesday and batch 2 Thursday and Friday; even weeks swap |
| SeatFlowSchedule.WeekSplitsBetweenBatches | mayank/server.js:121-129 | within a week Monday to Wednesday share one owner and Thursday and Friday have the other |
| SeatFlowSchedule.SameDayNextWeek | mayank/server.js:121-129 | when the parity flips, the same weekday a week later has the other owner |
| SeatFlowSchedule.OwnerAlternatesWithinYear | mayank/server.js:104-129 | inside one ISO year the owner of a weekday alternates from week to week |
| SeatFlowSchedule.RotationRepeatsAfterWeek53 | mayank/server.js:104-129 | after week 53 of 2020 comes week 1 of 2021, and batch 1 owns Monday in both |
| SeatFlowSchedule.IsWeekend | mayank/server.js:131-134 | true iff the day is not Monday to Friday |
| Broadcast.Broadcaster.constructor | controllers/apiController.js:12 | no clients, nothing delivered |
| Broadcast.Broadcaster.Connect | controllers/apiController.js:23-32 | the client joins the set and receives the opening comment frame |
| Broadcast.Broadcaster.Disconnect | controllers/apiController.js:33-36 | the client leaves the set; deliveries so far are kept |
| Broadcast.Broadcaster.Publish | controllers/apiController.js:14-19 | every connected client receives exactly one more frame, the event; nobody else receives anything |
| Tables.CancelRows | models/bookingModel.js:89-96 | exactly the matching rows become cancelled, and every other row is unchanged |
| Tables.CancelKeepsConsistent | models/bookingModel.js:89-96 | a cancel keeps at most one booked row per (user, date) and per (seat, date) |
| Tables.CancelKeepsKeys | models/bookingModel.js:89-96 | a cancel keeps keys below the next id and seat references valid |
| Tables.InsertKeepsConsistent | models/bookingModel.js:64-68 | a booked row for a free user and a free seat keeps both uniqueness rules |
| Tables.CancelIsIdempotent | models/bookingModel.js:89-96 | after a cancel no row matches, and a second cancel changes nothing |
| Tables.CancelNothing | models/bookingModel.js:89-96 | a cancel that matches no row leaves the table as it was |
| Tables.AffectedIffMatch | models/bookingModel.js:95 | `affectedRows > 0` iff some row matched |
| SeatModel.TotalSeats | models/seatModel.js:3 | 50 when the setting is absent or 0; the setting when it is non-zero; never 0 |
| SeatModel.GetAvailability | models/seatModel.js:9-21 | booked is the number of booked rows of the date, `available + booked = total`, and `available <= 0` iff `booked >= total` |
| SeatModel.InsertTakesOneSeat | models/seatModel.js:10-15 | inserting a booked row raises the day's booked count by one exactly on its own date |
| SeatModel.CancelFreesSeats | models/seatModel.js:10-15 | cancelling lowers the booked count of a date by the number of rows cancelled on it |
| LeaveModel.HasLeave | models/leaveModel.js:7-13 | true iff the user's row is among the leave rows of the date |
| LeaveModel.LeavesOn | models/leaveModel.js:39-45 | exactly the leave rows of the date |
| LeaveModel.CountByDate | models/leaveModel.js:39-45 | the count of leave rows for the date, at most the table size |
| LeaveModel.DeclareLeave | models/leaveModel.js:18-23 | INSERT IGNORE: the pair is added, an existing pair leaves the table unchanged, hasLeave holds afterwards, and other tables are unchanged |
| LeaveModel.CancelLeave | models/leaveModel.js:28-34 | returns whether hasLeave held before; the pair is removed, so hasLeave is false afterwards |
| LeaveModel.CancelLeaveTwice | models/leaveModel.js:28-34 | a second cancel returns false |
| LeaveModel.DeclareCount | models/leaveModel.js:18-23 | declaring raises countByDate of that date by one iff the pair is new, and leaves other dates unchanged |
| LeaveModel.CancelCount | models/leaveModel.js:28-34 | cancelling lowers countByDate of that date by one iff the pair existed, and leaves other dates unchanged |
| BookingModel.GetUserBooking | models/bookingModel.js:9-18 | the result is an active row of the user and date, joined with its seat number; none iff no active row has an existing seat |
| BookingModel.UserBookingIffActive | models/bookingModel.js:9-18 | when every booking names an existing seat, a result exists iff the user has an active booking |
| BookingModel.LowestFreeSeat | models/bookingModel.js:45-55 | the chosen seat is free on the date and has the smallest seat number among free seats; none iff every seat is taken |
| BookingModel.BookSeat | models/bookingModel.js:27-83 | already booked, or no free seat: nothing is written; otherwise exactly one booked row `(user, lowest free seat, date)` is added under the next id, and its seat number is returned |
| BookingModel.CancelBooking | models/bookingModel.js:89-96 | only rows matching id, user and booked status are cancelled; the result says whether one existed |
| BookingModel.CancelBookingTwice | models/bookingModel.js:89-96 | a second cancel returns false |
| BookingModel.BookedRowIsActive | models/bookingModel.js:64-68 | after the insert the user has an active booking on the date |
| BookingModel.CancelClearsActive | models/bookingModel.js:89-96 | under the uniqueness rule, cancelling the user's active row leaves no active booking for that user and date |
| BookingController.BookGate | controllers/bookingController.js:6-33 | weekend first, then full (`available <= 0`), then before 15:00 for a non-team-day user; passes iff none applies |
| BookingController.TeamDayNeverTimeChecked | controllers/bookingController.js:25-33 | a team-day user is never rejected for the hour, only when the day is full |
| BookingController.BookSeat | controllers/bookingController.js:6-50 | a gate rejection writes nothing; otherwise the outcome and the new tables are exactly those of `BookingModel.bookSeat` |
| BookingController.CancelBooking | controllers/bookingController.js:52-76 | a missing booking id reports an invalid booking and writes nothing; otherwise the result is that of `BookingModel.cancelBooking` |
| LeaveController.LeaveGate | controllers/leaveController.js:6-20 | weekend first, then non-team day; passes iff it is the user's team day |
| LeaveController.DeclareLeave | controllers/leaveController.js:6-36 | a rejection writes nothing; otherwise only the booking getUserBooking finds for today is cancelled, by its id and the user (nothing changes when it finds none), then the leave row is added, leaving the user on leave and without a booking |
| LeaveController.DeclareLeaveTwice | controllers/leaveController.js:22-29 | declaring twice on a team day succeeds both times and leaves one leave row |
| LeaveController.CancelLeave | controllers/leaveController.js:38-58 | reports an error iff no leave existed for today; the leave is gone afterwards |
| ApiSeats.LastHolder | controllers/apiController.js:111-114 | a holder exists iff a booked row holds the seat on the date, and it is the user of such a row |
| ApiSeats.HolderIsUnique | controllers/apiController.js:111-114 | under the seat uniqueness rule the holder is the user of the only holding row |
| ApiSeats.ProjectSeat | controllers/apiController.js:127-134 | id is the seat number; regular iff key <= 40; floor 1 iff key <= 20; booked only if taken, with bookedBy a holder; tempFloater iff a cancelled row exists |
| ApiSeats.BookedIffTaken | controllers/apiController.js:131 | with non-zero user ids, booked iff a booked row holds the seat |
| ApiSeats.TempFloaterEvenWhenRebooked | controllers/apiController.js:125-133 | for any rows with non-zero users, a seat with a cancelled row and a booked row on the date shows both booked and tempFloater |
| ApiSeats.SeatList | controllers/apiController.js:127-134 | one projected entry per seat row, in order |
| ApiSeats.LeavesJoined | controllers/apiController.js:117-122 | the leave rows of the date whose user exists |
| ApiSeats.SeatStats | controllers/apiController.js:142-170 | totalBooked equals the day's booked count; bookedRegular and bookedFloater count the day's booked rows on existing regular and floater seats; `availableFloaters = 10 - bookedFloater + releasedSeats`; regular plus floater is at most totalBooked; onLeave is the number of joined leave rows, at most countByDate |
| ApiSeats.StatsSplitBooked | controllers/apiController.js:142-150 | when every booking names an existing seat, `bookedRegular + bookedFloater = totalBooked` |
| ApiSeats.OnLeaveIsCountByDate | controllers/apiController.js:117-122 | when every user on leave exists, onLeave equals countByDate |
| ApiSeats.OwningBatch | controllers/apiController.js:137-140 | none iff weekend; otherwise the only batch whose team day it is |
| ApiSeats.Schedule | controllers/apiController.js:393-412 | isWeekend iff the date is a Saturday or Sunday, iff no owning batch; the owner is `OwningBatch` of the date, whose team day it is; the week number is 1 |
| ApiSeats.GetSeats | controllers/apiController.js:84-176 | the header is the schedule, weekParity repeats the week number, and the seats and stats are the projections above |
| ApiController.SeatByNumber | controllers/apiController.js:200-202 | the seat found has the requested seat number; none iff no seat has it |
| ApiController.DecideBook | controllers/apiController.js:179-261 | each rejection (missing fields, weekend, unknown employee, unknown seat number, duplicate, leave, seat taken, before the cutoff for a floater or a non-team-day temporary floater, regular seat on a non-team day) happens iff the guards before it pass and its condition holds; the booking is inserted, for the looked-up user and seat, iff no guard fires |
| ApiController.TeamDayRegularAccepted | controllers/apiController.js:204-267 | a free regular seat on the employee's team day, with no booking and no leave, is accepted at any time |
| ApiController.AcceptKeepsConsistent | controllers/apiController.js:263-267 | the inserted row keeps one booked row per (user, date) and per (seat, date) |
| ApiController.ReleasedSeatIsTempFloater | controllers/apiController.js:207-215 | after a release, the released regular seat counts as a temporary floater |
| ApiController.BookSeat | controllers/apiController.js:179-282 | a rejection writes nothing and sends nothing; acceptance inserts exactly one booked row and sends one `booking` event; closed connections receive nothing |
| ApiController.ReleaseClearsActive | controllers/apiController.js:300-304 | after the release UPDATE the employee holds no booked row on the date |
| ApiController.ReleaseSeat | controllers/apiController.js:285-328 | every booked row of the user and date is cancelled and no other row changes; not found iff none existed; the event carries the seat number; closed connections receive nothing |
| ApiController.DecideLeave | controllers/apiController.js:415-445 | each rejection (missing fields, weekend, unknown employee, not a team day, leave already declared) is reported iff the guards before it pass and its condition holds; accepted iff an existing employee asks on a team day without a leave |
| ApiController.DeclareLeave | controllers/apiController.js:415-496 | a rejection writes nothing; otherwise the active booking is cancelled first, the leave row is added, and freedSeat is that booking's seat number or none; closed connections receive nothing |
| ApiController.CancelLeave | controllers/apiController.js:499-527 | not found iff no leave existed; otherwise the leave is removed and one `leave` event is sent; closed connections receive nothing |
| SeatFlowStore.NatToString | mayank/server.js:71 | the decimal string of a number is non-empty and all digits |
| SeatFlowStore.PadStart | mayank/server.js:71 | the padded string has the requested width, or its own length when longer |
| SeatFlowStore.PadStartIsZeros | mayank/server.js:71 | padding prepends exactly the missing number of zeros |
| SeatFlowStore.NatToStringRoundTrip | mayank/server.js:71 | reading the decimal string back gives the number |
| SeatFlowStore.LeadingZeros | mayank/server.js:71 | leading zeros do not change the value |
| SeatFlowStore.ZerosValue | mayank/server.js:71 | a run of zeros reads as 0 |
| SeatFlowStore.PaddedIdInjective | mayank/server.js:71-88 | two padded ids with the same prefix are equal only for the same number |
| SeatFlowStore.DefaultEmployees | mayank/server.js:67-76 | 80 employees, the i-th being `EMP` plus i padded to 3 digits |
| SeatFlowStore.DefaultSeats | mayank/server.js:78-92 | 40 regular seats R01..R40 followed by 10 floaters F01..F10 |
| SeatFlowStore.DefaultEmployeesDistinct | mayank/server.js:67-76 | employee ids are distinct; employees 1..40 are batch 1, the rest batch 2 |
| SeatFlowStore.DefaultSeatsDistinct | mayank/server.js:78-92 | all seat ids are distinct, regular or floater |
| SeatFlowStore.PushActivity | mayank/server.js:136-146 | the entry is first, the old log follows shifted by one, and the length is capped at 200 |
| SeatFlowStore.PushAllKeepsNewest | mayank/server.js:136-146 | after any number of entries the log holds the newest 200, newest first |
| SeatFlowStore.SeatFlowData.constructor | mayank/server.js:94 | the given employees and seats, no bookings, an empty log |
| SeatFlowStore.SeatFlowData.AddActivity | mayank/server.js:136-146 | the log becomes `PushActivity` of the old log; nothing else changes |
| SeatFlowStore.GetDefaultData | mayank/server.js:66-95 | fresh data with the default employees and seats and no bookings or activity |
| SeatFlowApi.SeatById | mayank/server.js:254 | the seat found has the requested id; none iff no seat has it |
| SeatFlowApi.KindsPartitionKnown | mayank/server.js:203-226 | a booked row on a known seat counts as exactly one of regular or floater |
| SeatFlowApi.LastHolder | mayank/server.js:190-193 | a holder exists iff a booked row holds the seat on the date, and it is the employee of such a row |
| SeatFlowApi.ProjectSeat | mayank/server.js:195-201 | id, type and floor copied; booked iff a holder with a non-empty id; with non-empty ids, booked iff a booked row holds the seat |
| SeatFlowApi.SeatStats | mayank/server.js:203-231 | the seat totals are 50, 40 and 10; bookedRegular and bookedFloater count the day's booked rows on known regular and floater seats; `availableFloaters = 10 - used + released`; regular plus floater is at most totalBooked |
| SeatFlowApi.StatsSplitBooked | mayank/server.js:203-231 | when every booking names a known seat, `bookedRegular + bookedFloater = totalBooked` |
| SeatFlowApi.Schedule | mayank/server.js:397-409 | isWeekend is `isWeekend` of the date, iff no owning batch; the owner is `batchForDay`; the week number and parity are those of the date, the number in 1..53 and the parity 1 iff it is odd |
| SeatFlowApi.GetSeats | mayank/server.js:176-233 | the header is the schedule, and the seats and stats are the projections above |
| SeatFlowApi.DecideSeat | mayank/server.js:257-307 | each rejection (duplicate, seat taken, before the cutoff for a floater or a non-team day, regular seat on a non-team day, no floater left under `10 + released`) happens iff the guards before it pass and its condition holds; the booking is inserted iff none fires |
| SeatFlowApi.EmployeeById | mayank/server.js:251 | the employee found has the requested id; none iff no employee has it |
| SeatFlowApi.DecideBook | mayank/server.js:238-307 | missing fields iff a field is absent or an empty id; weekend iff complete and a weekend; unknown employee and unknown seat each iff the guards before pass and the lookup fails; after both lookups the decision is `DecideSeat` with the rotation's team day; an accepted floater leaves `availableFloaters > 0` |
| SeatFlowApi.AcceptKeepsConsistent | mayank/server.js:257-269 | the appended row keeps one booked row per (employee, date) and per (seat, date) |
| SeatFlowApi.ReleaseKeepsConsistent | mayank/server.js:343-351 | flipping one booked row to released keeps both rules and leaves the employee with no booked row on the date |
| SeatFlowApi.ReleaseAddsFloater | mayank/server.js:203-231 | a release raises availableFloaters of the date by one, or by two when it frees a floater |
| SeatFlowApi.Book | mayank/server.js:238-332 | a rejection writes, logs and sends nothing; acceptance appends exactly one booked row, logs one activity, sends one `booking` event, and keeps the uniqueness rules; closed connections receive nothing |
| SeatFlowApi.Release | mayank/server.js:337-368 | an absent or empty employee id or an absent date is rejected as missing; otherwise only the first booked row of the employee and date is flipped to released; 404 iff none; one activity and one event; the uniqueness rules are kept; closed connections receive nothing |

## Left out

- HTTP plumbing is not modelled: Express routing, sessions, flash messages, EJS pages and
  response codes. The handlers return an error value instead of a status and a message.
- The login handlers (bcrypt, the SeatFlow password rule), `controllers/authController.js`
  and `models/userModel.js` are not part of this model.
- `controllers/adminController.js` and `controllers/dashboardController.js` only render
  pages.
- The listings are left out: `myBookings`, `activity` and `time` (`/api/time`) in both
  servers, `leaveStatus` in `controllers/apiController.js`, and `getBookingsByDate` and
  `getLeavesByDate`. They only query and format rows or read the clock.
- The "date required" 400 of the seat map and the schedule endpoints in both servers
  (`getSeats` and `schedule` in `controllers/apiController.js`, `/api/seats` and
  `/api/schedule` in `mayank/server.js`) is left out: `ApiSeats.GetSeats`,
  `ApiSeats.Schedule`, `SeatFlowApi.GetSeats` and `SeatFlowApi.Schedule` take a day and
  never reject.
- `loadData` and `saveData` in `mayank/server.js` are file I/O. The data is the in-memory
  `SeatFlowData` object.
- The clock, time zones and date strings are not modelled. Dates are day numbers and the
  current time is a parameter. Invalid date strings and the UTC-versus-local difference
  are left out.
- SSE text framing and JSON payloads are left out. A frame is `Comment` or
  `Event(name, data)`, and the payload's `timestamp` is left out.
- Database concurrency, row locks and thrown errors are left out. Each transaction is one
  atomic step, so the rollback path of `BookingModel.bookSeat` writes nothing by
  construction.
- The front-end scripts are left out.
- ApiSeats.SeatList: the seat list follows the order of the `seats` sequence. The
  `ORDER BY id` of the query is not modelled.
- ApiController.BookSeat: the seat is looked up by its number, and request ids are already
  numbers. Parsing ids from strings is not modelled.
- SeatFlowApi.Book: the booking id is a parameter instead of `BK` followed by
  `Date.now()`. One `now` is used for `bookedAt`, the activity and the event.
- SeatFlowApi.Release: one `now` is used for `releasedAt` and the activity, where the
  source reads the clock separately for each.
- SeatModel.TotalSeats: the environment setting is given as the number `parseInt`
  produced, or none when the result is NaN. The parse itself is not modelled.
- WeekHelper.GetDayName: an out-of-range day number gives none instead of `undefined`.
