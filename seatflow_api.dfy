/** The seat map, booking and release handlers of the stand-alone SeatFlow server
    (mayank/server.js): GET /api/seats and /api/schedule, POST /api/book and
    /api/release, over the in-memory store, with the rotating batch schedule. A request
    field that is absent is None; an empty string is falsy and counts as missing too. */
module SeatFlowApi {
  import opened Common
  import opened Calendar
  import opened SeatFlowStore
  import opened Broadcast
  import SeatFlowSchedule

  // ---------------------------------------------------------------------------
  // Row filters and the table rules.

  /** `b.date === date && b.status === "booked"` */
  function BookedOn(date: Day): MBooking -> bool {
    (b: MBooking) => b.date == date && b.status == Booked
  }

  /** `b.date === date && b.status === "released"` */
  function ReleasedOn(date: Day): MBooking -> bool {
    (b: MBooking) => b.date == date && b.status == Released
  }

  /** `b.date === date && b.employeeId === employeeId && b.status === "booked"` */
  function ActiveOf(employeeId: string, date: Day): MBooking -> bool {
    (b: MBooking) => b.date == date && b.employeeId == employeeId && b.status == Booked
  }

  /** `b.date === date && b.seatId === seatId && b.status === "booked"` */
  function HoldsSeat(seatId: string, date: Day): MBooking -> bool {
    (b: MBooking) => b.date == date && b.seatId == seatId && b.status == Booked
  }

  /** At most one booked row per (employee, date) and per (seat, date). */
  predicate ConsistentBookings(rows: seq<MBooking>) {
    forall i, j ::
      (0 <= i < j < |rows| && rows[i].status == Booked && rows[j].status == Booked &&
       rows[i].date == rows[j].date)
      ==> rows[i].employeeId != rows[j].employeeId && rows[i].seatId != rows[j].seatId
  }

  /** `data.seats.find((s) => s.id === seatId)` */
  function SeatById(seats: seq<MSeat>, seatId: string): (r: Option<MSeat>)
    ensures r.Some? ==> r.value in seats && r.value.id == seatId
    ensures r.None? <==> forall s :: s in seats ==> s.id != seatId
  {
    Find(seats, (s: MSeat) => s.id == seatId)
  }

  /** A booked row of the date whose seat, looked up by id, has the given kind
      (`dayBookings.filter((b) => data.seats.find((s) => s.id === b.seatId)?.type === kind)`). */
  function BookedOfKind(seats: seq<MSeat>, date: Day, kind: SeatKind): MBooking -> bool {
    (b: MBooking) => BookedOn(date)(b) && SeatById(seats, b.seatId).Some? && SeatById(seats, b.seatId).value.kind == kind
  }

  /** A booked row of the date on a seat the store knows. */
  function BookedOnKnown(seats: seq<MSeat>, date: Day): MBooking -> bool {
    (b: MBooking) => BookedOn(date)(b) && SeatById(seats, b.seatId).Some?
  }

  /** A booked row on a known seat is exactly one of regular or floater. */
  lemma KindsPartitionKnown(seats: seq<MSeat>, date: Day)
    ensures forall x ::
      (BookedOnKnown(seats, date)(x) == (BookedOfKind(seats, date, Regular)(x) || BookedOfKind(seats, date, Floater)(x)))
    ensures forall x :: !(BookedOfKind(seats, date, Regular)(x) && BookedOfKind(seats, date, Floater)(x))
  {
    forall x ensures BookedOnKnown(seats, date)(x) ==
      (BookedOfKind(seats, date, Regular)(x) || BookedOfKind(seats, date, Floater)(x))
    {
      var s := SeatById(seats, x.seatId);
      if s.Some? {
        assert s.value.kind == Regular || s.value.kind == Floater;
      }
    }
  }

  /** Floater seats booked on the date. */
  function UsedFloaters(seats: seq<MSeat>, rows: seq<MBooking>, date: Day): nat {
    Count(rows, BookedOfKind(seats, date, Floater))
  }

  /** Bookings released on the date: each adds one floater to the day's capacity. */
  function ReleasedCount(rows: seq<MBooking>, date: Day): nat {
    Count(rows, ReleasedOn(date))
  }

  // ---------------------------------------------------------------------------
  // GET /api/seats and GET /api/schedule.

  /** The holder `bookedMap` ends up with: the booked rows of the date in list order,
      the last one winning. */
  function LastHolder(rows: seq<MBooking>, seatId: string, date: Day): (r: Option<string>)
    ensures r.Some? <==> exists b :: b in rows && HoldsSeat(seatId, date)(b)
    ensures r.Some? ==> exists b :: b in rows && HoldsSeat(seatId, date)(b) && b.employeeId == r.value
  {
    if rows == [] then None
    else
      var last := rows[|rows| - 1];
      if HoldsSeat(seatId, date)(last) then Some(last.employeeId)
      else
        var r := LastHolder(rows[..|rows| - 1], seatId, date);
        assert forall b :: b in rows[..|rows| - 1] ==> b in rows;
        assert forall b :: b in rows ==> b in rows[..|rows| - 1] || b == last;
        r
  }

  datatype SeatView = SeatView(id: string, kind: SeatKind, floor: int, booked: bool,
                               bookedBy: Option<string>)

  /** One entry of the seat map; an empty employee id is falsy and reads as free. */
  function ProjectSeat(s: MSeat, rows: seq<MBooking>, date: Day): (v: SeatView)
    ensures v.id == s.id && v.kind == s.kind && v.floor == s.floor
    ensures v.bookedBy.Some? <==> v.booked
    ensures v.booked ==> exists b :: b in rows && HoldsSeat(s.id, date)(b) && b.employeeId == v.bookedBy.value
    ensures (forall b :: b in rows && HoldsSeat(s.id, date)(b) ==> b.employeeId != "") ==>
      (v.booked <==> exists b :: b in rows && HoldsSeat(s.id, date)(b))
  {
    var holder := LastHolder(rows, s.id, date);
    var booked := holder.Some? && holder.value != "";
    SeatView(s.id, s.kind, s.floor, booked, if booked then holder else None)
  }

  datatype Stats = Stats(totalSeats: int, regularSeats: int, floaterSeats: int,
                         bookedRegular: nat, bookedFloater: nat, availableFloaters: int,
                         releasedSeats: nat, totalBooked: nat)

  function SeatStats(seats: seq<MSeat>, rows: seq<MBooking>, date: Day): (st: Stats)
    ensures st.totalSeats == TOTAL_SEATS && st.regularSeats == REGULAR_SEATS && st.floaterSeats == FLOATER_SEATS
    ensures st.bookedRegular == Count(rows, BookedOfKind(seats, date, Regular))
    ensures st.bookedFloater == UsedFloaters(seats, rows, date)
    ensures st.releasedSeats == ReleasedCount(rows, date)
    ensures st.availableFloaters == FLOATER_SEATS - st.bookedFloater + st.releasedSeats
    ensures st.bookedRegular + st.bookedFloater <= st.totalBooked
    ensures st.totalBooked == Count(rows, BookedOn(date))
  {
    KindsPartitionKnown(seats, date);
    CountSplit(rows, BookedOfKind(seats, date, Regular), BookedOfKind(seats, date, Floater), BookedOnKnown(seats, date));
    CountMono(rows, BookedOnKnown(seats, date), BookedOn(date));
    var used := UsedFloaters(seats, rows, date);
    var released := ReleasedCount(rows, date);
    Stats(TOTAL_SEATS, REGULAR_SEATS, FLOATER_SEATS, Count(rows, BookedOfKind(seats, date, Regular)), used,
          FLOATER_SEATS - used + released, released, Count(rows, BookedOn(date)))
  }

  /** When every booking names a known seat, each booked row is exactly one of
      regular or floater. */
  lemma StatsSplitBooked(seats: seq<MSeat>, rows: seq<MBooking>, date: Day)
    requires forall b :: b in rows ==> SeatById(seats, b.seatId).Some?
    ensures SeatStats(seats, rows, date).bookedRegular + SeatStats(seats, rows, date).bookedFloater ==
      SeatStats(seats, rows, date).totalBooked
  {
    CountSame(rows, BookedOnKnown(seats, date), BookedOn(date));
    KindsPartitionKnown(seats, date);
    CountSplit(rows, BookedOfKind(seats, date, Regular), BookedOfKind(seats, date, Floater), BookedOnKnown(seats, date));
  }

  datatype ScheduleView = ScheduleView(date: Day, isWeekend: bool, owningBatch: Option<int>,
                                       weekNumber: int, weekParity: int)

  /** The schedule summary: no owner at the weekend, else the rotation's batch. */
  function Schedule(d: Day): (v: ScheduleView)
    ensures v.isWeekend <==> v.owningBatch.None?
    ensures v.owningBatch.Some? ==> v.owningBatch.value == SeatFlowSchedule.BatchForDay(d)
    ensures 1 <= v.weekNumber <= 53 && (v.weekParity == 1 <==> v.weekNumber % 2 == 1)
    ensures v.date == d && v.isWeekend == SeatFlowSchedule.IsWeekend(d)
    ensures v.weekNumber == SeatFlowSchedule.GetWeekNumber(d) && v.weekParity == SeatFlowSchedule.WeekParity(d)
  {
    var weekend := SeatFlowSchedule.IsWeekend(d);
    ScheduleView(d, weekend, if weekend then None else Some(SeatFlowSchedule.BatchForDay(d)),
                 SeatFlowSchedule.GetWeekNumber(d), SeatFlowSchedule.WeekParity(d))
  }

  datatype SeatMap = SeatMap(header: ScheduleView, seats: seq<SeatView>, stats: Stats)

  function GetSeats(data: SeatFlowData, date: Day): (m: SeatMap)
    reads data
    ensures m.header == Schedule(date)
    ensures |m.seats| == |data.seats|
    ensures forall i :: 0 <= i < |data.seats| ==> m.seats[i] == ProjectSeat(data.seats[i], data.bookings, date)
    ensures m.stats == SeatStats(data.seats, data.bookings, date)
  {
    SeatMap(Schedule(date),
            seq(|data.seats|, i requires 0 <= i < |data.seats| reads data => ProjectSeat(data.seats[i], data.bookings, date)),
            SeatStats(data.seats, data.bookings, date))
  }

  // ---------------------------------------------------------------------------
  // POST /api/book and POST /api/release.

  datatype MError =
    | MissingFields
    | WeekendDate
    | EmployeeNotFound
    | SeatNotFound
    | DuplicateBooking
    | SeatAlreadyTaken
    | BeforeCutoff
    | NotYourTeamDay
    | NoFloatersLeft
    | NoActiveBooking

  datatype BookRequest = BookRequest(employeeId: Option<string>, seatId: Option<string>, date: Option<Day>)

  /** `employeeId && seatId && date`: each field is present and not the empty string
      (a missing date is None). */
  predicate Complete(req: BookRequest) {
    req.employeeId.Some? && req.employeeId.value != "" &&
    req.seatId.Some? && req.seatId.value != "" && req.date.Some?
  }

  datatype BookDecision = Reject(error: MError) | Insert(employee: Employee, seat: MSeat)

  /** 15:00 on the day before the booked date. */
  function Cutoff(date: Day): Instant {
    AtHour(date - 1, 15)
  }

  /** Is the date a team day of the employee under the rotation? */
  predicate TeamDay(e: Employee, date: Day) {
    e.batch == SeatFlowSchedule.BatchForDay(date)
  }

  /** The guards of the book handler that follow the lookups of the employee and the
      seat, in source order: a booking already held that day, the seat taken, the 15:00
      cutoff of the day before (for every floater and every non-team-day booking), a
      regular seat on a non-team day, and the floater capacity of the day (10 plus one
      per released booking). */
  function DecideSeat(seats: seq<MSeat>, rows: seq<MBooking>, employee: Employee, seat: MSeat,
                      date: Day, teamDay: bool, now: Instant): (r: BookDecision)
    ensures r != Reject(MissingFields)
    ensures r.Insert? ==>
      r.employee == employee && r.seat == seat &&
      (forall b :: b in rows ==> !ActiveOf(employee.id, date)(b)) &&
      (forall b :: b in rows ==> !HoldsSeat(seat.id, date)(b))
    ensures r.Insert? && (seat.kind == Floater || !teamDay) ==> !Before(now, Cutoff(date))
    ensures r.Insert? && !teamDay ==> seat.kind == Floater
    ensures r.Insert? && seat.kind == Floater ==> UsedFloaters(seats, rows, date) < FLOATER_SEATS + ReleasedCount(rows, date)
    ensures r == Reject(BeforeCutoff) ==> Before(now, Cutoff(date))
    // Each guard fires exactly when the guards before it pass and its own condition
    // holds, and the row is inserted exactly when none fires.
    ensures var active := exists b :: b in rows && ActiveOf(employee.id, date)(b);
            var taken := exists b :: b in rows && HoldsSeat(seat.id, date)(b);
            var early := (seat.kind == Floater || !teamDay) && Before(now, Cutoff(date));
            var wrongDay := !teamDay && seat.kind == Regular;
            var full := seat.kind == Floater &&
                        UsedFloaters(seats, rows, date) >= FLOATER_SEATS + ReleasedCount(rows, date);
      (r == Reject(DuplicateBooking) <==> active) &&
      (r == Reject(SeatAlreadyTaken) <==> !active && taken) &&
      (r == Reject(BeforeCutoff) <==> !active && !taken && early) &&
      (r == Reject(NotYourTeamDay) <==> !active && !taken && !early && wrongDay) &&
      (r == Reject(NoFloatersLeft) <==> !active && !taken && !early && !wrongDay && full) &&
      (r == Insert(employee, seat) <==> !active && !taken && !early && !wrongDay && !full)
  {
    if Find(rows, ActiveOf(employee.id, date)).Some? then Reject(DuplicateBooking)
    else if Find(rows, HoldsSeat(seat.id, date)).Some? then Reject(SeatAlreadyTaken)
    else if (seat.kind == Floater || !teamDay) && Before(now, Cutoff(date)) then Reject(BeforeCutoff)
    else if !teamDay && seat.kind == Regular then Reject(NotYourTeamDay)
    else if seat.kind == Floater && UsedFloaters(seats, rows, date) >= FLOATER_SEATS + ReleasedCount(rows, date)
    then Reject(NoFloatersLeft)
    else
      assert seat.kind == Regular || seat.kind == Floater;
      Insert(employee, seat)
  }

  /** `data.employees.find((e) => e.id === employeeId)` */
  function EmployeeById(employees: seq<Employee>, employeeId: string): (r: Option<Employee>)
    ensures r.Some? ==> r.value in employees && r.value.id == employeeId
    ensures r.None? <==> forall e :: e in employees ==> e.id != employeeId
  {
    Find(employees, (e: Employee) => e.id == employeeId)
  }

  /** The whole guard chain of the book handler: missing fields, weekend, unknown
      employee, unknown seat, then the seat guards. */
  function DecideBook(data: SeatFlowData, req: BookRequest, now: Instant): (r: BookDecision)
    reads data
    ensures r == Reject(MissingFields) <==> !Complete(req)
    ensures Complete(req) && SeatFlowSchedule.IsWeekend(req.date.value) ==> r == Reject(WeekendDate)
    ensures r.Insert? ==>
      Complete(req) &&
      var date := req.date.value;
      !SeatFlowSchedule.IsWeekend(date) &&
      r.employee in data.employees && r.employee.id == req.employeeId.value &&
      r.seat in data.seats && r.seat.id == req.seatId.value &&
      (forall b :: b in data.bookings ==> !ActiveOf(req.employeeId.value, date)(b)) &&
      (forall b :: b in data.bookings ==> !HoldsSeat(req.seatId.value, date)(b))
    ensures r.Insert? && (r.seat.kind == Floater || !TeamDay(r.employee, req.date.value)) ==>
      !Before(now, Cutoff(req.date.value))
    ensures r.Insert? && !TeamDay(r.employee, req.date.value) ==> r.seat.kind == Floater
    ensures r.Insert? && r.seat.kind == Floater ==>
      SeatStats(data.seats, data.bookings, req.date.value).availableFloaters > 0
    ensures r == Reject(BeforeCutoff) ==> Complete(req) && Before(now, Cutoff(req.date.value))
    ensures Complete(req) ==>
      (r == Reject(WeekendDate) <==> SeatFlowSchedule.IsWeekend(req.date.value))
    ensures Complete(req) && !SeatFlowSchedule.IsWeekend(req.date.value) ==>
      (r == Reject(EmployeeNotFound) <==> EmployeeById(data.employees, req.employeeId.value).None?)
    ensures Complete(req) && !SeatFlowSchedule.IsWeekend(req.date.value) &&
            EmployeeById(data.employees, req.employeeId.value).Some? ==>
      (r == Reject(SeatNotFound) <==> SeatById(data.seats, req.seatId.value).None?)
    // Once both lookups succeed the seat guards decide, with the rotation's team day.
    ensures Complete(req) && !SeatFlowSchedule.IsWeekend(req.date.value) &&
            EmployeeById(data.employees, req.employeeId.value).Some? &&
            SeatById(data.seats, req.seatId.value).Some? ==>
      var employee := EmployeeById(data.employees, req.employeeId.value).value;
      r == DecideSeat(data.seats, data.bookings, employee, SeatById(data.seats, req.seatId.value).value,
                      req.date.value, TeamDay(employee, req.date.value), now)
  {
    if !Complete(req) then Reject(MissingFields)
    else if SeatFlowSchedule.IsWeekend(req.date.value) then Reject(WeekendDate)
    else match EmployeeById(data.employees, req.employeeId.value)
      case None => Reject(EmployeeNotFound)
      case Some(employee) =>
        match SeatById(data.seats, req.seatId.value)
        case None => Reject(SeatNotFound)
        case Some(seat) => DecideSeat(data.seats, data.bookings, employee, seat, req.date.value,
                                           TeamDay(employee, req.date.value), now)
  }

  /** An accepted booking keeps one booked row per (employee, date) and per (seat, date). */
  lemma AcceptKeepsConsistent(data: SeatFlowData, req: BookRequest, now: Instant, b: MBooking)
    requires ConsistentBookings(data.bookings)
    requires DecideBook(data, req, now).Insert?
    requires b.status == Booked && b.date == req.date.value &&
             b.employeeId == req.employeeId.value && b.seatId == req.seatId.value
    ensures ConsistentBookings(data.bookings + [b])
  {
    var r := data.bookings + [b];
    forall i, j | 0 <= i < j < |r| && r[i].status == Booked && r[j].status == Booked && r[i].date == r[j].date
      ensures r[i].employeeId != r[j].employeeId && r[i].seatId != r[j].seatId
    {
      if j == |data.bookings| {
        assert r[i] in data.bookings;
        assert !ActiveOf(b.employeeId, b.date)(r[i]);
        assert !HoldsSeat(b.seatId, b.date)(r[i]);
      }
    }
  }

  /** Flipping one row to released never breaks the rules; under them it leaves the
      employee with no booked row on that date. */
  lemma ReleaseKeepsConsistent(rows: seq<MBooking>, idx: nat, at: Instant)
    requires ConsistentBookings(rows)
    requires idx < |rows| && rows[idx].status == Booked
    ensures var r := rows[idx := rows[idx].(status := Released, releasedAt := Some(at))];
            ConsistentBookings(r) &&
            forall b :: b in r ==> !ActiveOf(rows[idx].employeeId, rows[idx].date)(b)
  {
    var r := rows[idx := rows[idx].(status := Released, releasedAt := Some(at))];
    forall b | b in r ensures !ActiveOf(rows[idx].employeeId, rows[idx].date)(b) {
      var k :| 0 <= k < |r| && r[k] == b;
      if k != idx && ActiveOf(rows[idx].employeeId, rows[idx].date)(b) {
        assert false;
      }
    }
  }

  /** The payload of the `booking` event. */
  datatype Notice = Notice(action: Action, seatId: string, employeeId: string, date: Day)

  /** POST /api/book: on acceptance append one booked row, log the activity and send a
      `booking` event; a rejection changes nothing. */
  method Book(data: SeatFlowData, hub: Broadcaster<Notice>, req: BookRequest, now: Instant, bookingId: string)
    returns (r: Option<MError>)
    requires hub.Valid()
    modifies data, hub
    ensures hub.Valid() && hub.clients == old(hub.clients)
    ensures OnlyLiveWritten(old(hub.sent), hub.sent, hub.clients)
    ensures data.employees == old(data.employees) && data.seats == old(data.seats)
    ensures ConsistentBookings(old(data.bookings)) ==> ConsistentBookings(data.bookings)
    ensures old(DecideBook(data, req, now)).Reject? ==>
      r == Some(old(DecideBook(data, req, now)).error) &&
      data.bookings == old(data.bookings) && data.activityLog == old(data.activityLog) &&
      hub.sent == old(hub.sent)
    ensures old(DecideBook(data, req, now)).Insert? ==>
      var seat := old(DecideBook(data, req, now)).seat;
      var employeeId, seatId, date := req.employeeId.value, req.seatId.value, req.date.value;
      r.None? &&
      data.bookings == old(data.bookings) + [MBooking(bookingId, date, seatId, employeeId, seat.kind, Booked, now, None)] &&
      data.activityLog == PushActivity(old(data.activityLog), Activity(BookedAction, employeeId, seatId, date, now)) &&
      forall c :: c in hub.clients ==>
        hub.sent[c] == old(hub.sent[c]) + [Event("booking", Notice(BookedAction, seatId, employeeId, date))]
  {
    var decision := DecideBook(data, req, now);
    if decision.Reject? {
      return Some(decision.error);
    }
    var employeeId, seatId, date := req.employeeId.value, req.seatId.value, req.date.value;
    var booking := MBooking(bookingId, date, seatId, employeeId, decision.seat.kind, Booked, now, None);
    if ConsistentBookings(data.bookings) {
      AcceptKeepsConsistent(data, req, now, booking);
    }
    data.bookings := data.bookings + [booking];
    data.AddActivity(Activity(BookedAction, employeeId, seatId, date, now));
    hub.Publish("booking", Notice(BookedAction, seatId, employeeId, date));
    r := None;
  }

  /** POST /api/release: release the FIRST booked row of the employee on the date (404
      when there is none), log the activity and send a `booking` event. A missing or
      empty employee id, or a missing date, is rejected as missing. */
  method Release(data: SeatFlowData, hub: Broadcaster<Notice>, employeeId: Option<string>, date: Option<Day>, now: Instant)
    returns (r: Option<MError>)
    requires hub.Valid()
    modifies data, hub
    ensures hub.Valid() && hub.clients == old(hub.clients)
    ensures OnlyLiveWritten(old(hub.sent), hub.sent, hub.clients)
    ensures data.employees == old(data.employees) && data.seats == old(data.seats)
    ensures ConsistentBookings(old(data.bookings)) ==> ConsistentBookings(data.bookings)
    ensures (employeeId.None? || employeeId.value == "" || date.None?) ==>
      r == Some(MissingFields) && data.bookings == old(data.bookings) &&
      data.activityLog == old(data.activityLog) && hub.sent == old(hub.sent)
    ensures (employeeId.Some? && employeeId.value != "" && date.Some?) ==>
      var idx := FindIndex(old(data.bookings), ActiveOf(employeeId.value, date.value));
      (idx.None? ==>
        r == Some(NoActiveBooking) && data.bookings == old(data.bookings) &&
        data.activityLog == old(data.activityLog) && hub.sent == old(hub.sent)) &&
      (idx.Some? ==>
        var b := old(data.bookings)[idx.value];
        r.None? &&
        data.bookings == old(data.bookings)[idx.value := b.(status := Released, releasedAt := Some(now))] &&
        data.activityLog == PushActivity(old(data.activityLog), Activity(ReleasedAction, employeeId.value, b.seatId, date.value, now)) &&
        forall c :: c in hub.clients ==>
          hub.sent[c] == old(hub.sent[c]) + [Event("booking", Notice(ReleasedAction, b.seatId, employeeId.value, date.value))])
  {
    if employeeId.None? || employeeId.value == "" || date.None? {
      return Some(MissingFields);
    }
    var idx := FindIndex(data.bookings, ActiveOf(employeeId.value, date.value));
    if idx.None? {
      return Some(NoActiveBooking);
    }
    var i := idx.value;
    var b := data.bookings[i];
    if ConsistentBookings(data.bookings) {
      ReleaseKeepsConsistent(data.bookings, i, now);
    }
    data.bookings := data.bookings[i := b.(status := Released, releasedAt := Some(now))];
    data.AddActivity(Activity(ReleasedAction, employeeId.value, b.seatId, date.value, now));
    hub.Publish("booking", Notice(ReleasedAction, b.seatId, employeeId.value, date.value));
    r := None;
  }

  /** A release adds one to the day's released count, so the floater capacity grows by
      one, and by two when the released seat was a floater. */
  lemma ReleaseAddsFloater(seats: seq<MSeat>, rows: seq<MBooking>, idx: nat, at: Instant)
    requires idx < |rows| && rows[idx].status == Booked
    ensures var date := rows[idx].date;
            var r := rows[idx := rows[idx].(status := Released, releasedAt := Some(at))];
            SeatStats(seats, r, date).availableFloaters ==
              SeatStats(seats, rows, date).availableFloaters + 1 +
              (if BookedOfKind(seats, date, Floater)(rows[idx]) then 1 else 0)
  {
    var date := rows[idx].date;
    var b' := rows[idx].(status := Released, releasedAt := Some(at));
    CountUpdate(rows, idx, b', ReleasedOn(date));
    CountUpdate(rows, idx, b', BookedOfKind(seats, date, Floater));
  }
}
