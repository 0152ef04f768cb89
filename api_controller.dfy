/** The writing handlers of controllers/apiController.js (POST /api/book, /api/release,
    /api/leave/declare, /api/leave/cancel). Each is an ordered chain of guards that
    rejects without writing, followed by one insert or status flip, and an event sent
    to every connected observer. A request field that is missing or falsy is None. */
module ApiController {
  import opened Common
  import opened Calendar
  import opened Tables
  import opened Broadcast
  import WeekHelper
  import BookingModel
  import ApiSeats

  datatype ApiError =
    | MissingFields
    | WeekendDate
    | EmployeeNotFound
    | SeatNotFound
    | DuplicateBooking
    | EmployeeOnLeave
    | SeatAlreadyTaken
    | BeforeCutoff
    | NotYourTeamDay
    | NoActiveBooking
    | LeaveExists
    | NoLeaveFound

  /** The payloads of the `booking` and `leave` events (timestamps left out). */
  datatype Notice =
    | SeatBooked(seatId: int, employee: int, date: Day)
    | SeatReleased(seatNumber: Option<int>, employee: int, date: Day, forLeave: bool)
    | LeaveDeclared(employee: int, date: Day, freedSeat: Option<int>)
    | LeaveCancelled(employee: int, date: Day)

  datatype BookRequest = BookRequest(employeeId: Option<int>, seatId: Option<int>, date: Option<Day>)

  /** All three request fields are present (and truthy). */
  predicate Complete(req: BookRequest) {
    req.employeeId.Some? && req.seatId.Some? && req.date.Some?
  }

  /** What the booking guard chain decides: a rejection, or the row to insert. */
  datatype BookDecision = Reject(error: ApiError) | Insert(user: User, seat: Seat)

  /** `SELECT * FROM seats WHERE seat_number = ?`, first row. */
  function SeatByNumber(seats: seq<Seat>, seatNumber: int): (r: Option<Seat>)
    ensures r.Some? ==> r.value in seats && r.value.seatNumber == seatNumber
    ensures r.None? <==> forall s :: s in seats ==> s.seatNumber != seatNumber
  {
    Find(seats, (s: Seat) => s.seatNumber == seatNumber)
  }

  /** A regular seat with a cancelled row on the date: freed by a leave or a release. */
  predicate IsTempFloater(rows: seq<Booking>, seat: Seat, date: Day) {
    seat.id <= ApiSeats.REGULAR_SEATS && HasCancelled(rows, seat.id, date)
  }

  /** 15:00 on the day before the booked date. */
  function Cutoff(date: Day): Instant {
    AtHour(date - 1, 15)
  }

  /** The guard chain of bookSeat, in source order: missing fields, weekend, unknown
      employee, unknown seat number, a booking already held that day, leave that day,
      the seat taken, the 15:00 cutoff of the day before (for floaters, and for temporary
      floaters booked on a non-team day), and a regular seat on a non-team day. */
  function DecideBook(db: Database, req: BookRequest, now: Instant): (r: BookDecision)
    reads db
    ensures r.Insert? ==>
      Complete(req) &&
      var date := req.date.value;
      WeekHelper.IsWeekday(date) &&
      req.employeeId.value in db.users && r.user == db.users[req.employeeId.value] &&
      SeatByNumber(db.seats, req.seatId.value) == Some(r.seat) &&
      !HasActive(db.bookings, req.employeeId.value, date) &&
      (req.employeeId.value, date) !in db.leaves &&
      !SeatTaken(db.bookings, r.seat.id, date)
    ensures r.Insert? && (r.seat.id > ApiSeats.REGULAR_SEATS ||
             (!WeekHelper.IsTeamDay(r.user.batch, req.date.value) &&
              IsTempFloater(db.bookings, r.seat, req.date.value))) ==>
      !Before(now, Cutoff(req.date.value))
    ensures r.Insert? && r.seat.id <= ApiSeats.REGULAR_SEATS &&
            !WeekHelper.IsTeamDay(r.user.batch, req.date.value) ==>
      IsTempFloater(db.bookings, r.seat, req.date.value)
    ensures r == Reject(DuplicateBooking) ==>
      Complete(req) && HasActive(db.bookings, req.employeeId.value, req.date.value)
    ensures r == Reject(EmployeeOnLeave) ==>
      Complete(req) && !HasActive(db.bookings, req.employeeId.value, req.date.value) &&
      (req.employeeId.value, req.date.value) in db.leaves
    ensures r == Reject(BeforeCutoff) ==> Complete(req) && Before(now, Cutoff(req.date.value))
    ensures r == Reject(MissingFields) <==>
      !Complete(req)
    ensures (r.Reject? && r.error == WeekendDate) <==>
      Complete(req) && !WeekHelper.IsWeekday(req.date.value)
    ensures Complete(req) && WeekHelper.IsWeekday(req.date.value) ==>
      (r == Reject(EmployeeNotFound) <==> req.employeeId.value !in db.users)
    ensures Complete(req) && WeekHelper.IsWeekday(req.date.value) && req.employeeId.value in db.users ==>
      (r == Reject(SeatNotFound) <==> SeatByNumber(db.seats, req.seatId.value).None?)
    // Once both lookups succeed: each later guard fires exactly when the guards before it
    // pass and its own condition holds, and the row is inserted exactly when none fires.
    ensures Complete(req) && WeekHelper.IsWeekday(req.date.value) && req.employeeId.value in db.users &&
            SeatByNumber(db.seats, req.seatId.value).Some? ==>
      var id, date := req.employeeId.value, req.date.value;
      var user, seat := db.users[id], SeatByNumber(db.seats, req.seatId.value).value;
      var teamDay := WeekHelper.IsTeamDay(user.batch, date);
      var regular := seat.id <= ApiSeats.REGULAR_SEATS;
      var temp := IsTempFloater(db.bookings, seat, date);
      var active := HasActive(db.bookings, id, date);
      var onLeave := (id, date) in db.leaves;
      var taken := SeatTaken(db.bookings, seat.id, date);
      var early := (!regular || (!teamDay && temp)) && Before(now, Cutoff(date));
      (r == Reject(DuplicateBooking) <==> active) &&
      (r == Reject(EmployeeOnLeave) <==> !active && onLeave) &&
      (r == Reject(SeatAlreadyTaken) <==> !active && !onLeave && taken) &&
      (r == Reject(BeforeCutoff) <==> !active && !onLeave && !taken && early) &&
      (r == Reject(NotYourTeamDay) <==>
         !active && !onLeave && !taken && !early && regular && !teamDay && !temp) &&
      (r == Insert(user, seat) <==>
         !active && !onLeave && !taken && !early && !(regular && !teamDay && !temp))
  {
    if !Complete(req) then Reject(MissingFields)
    else
      var employeeId, date := req.employeeId.value, req.date.value;
      if !WeekHelper.IsWeekday(date) then Reject(WeekendDate)
      else if employeeId !in db.users then Reject(EmployeeNotFound)
      else
        var user := db.users[employeeId];
        match SeatByNumber(db.seats, req.seatId.value)
        case None => Reject(SeatNotFound)
        case Some(seat) =>
          var regular := seat.id <= ApiSeats.REGULAR_SEATS;
          var teamDay := WeekHelper.IsTeamDay(user.batch, date);
          var tempFloater := IsTempFloater(db.bookings, seat, date);
          if HasActive(db.bookings, employeeId, date) then Reject(DuplicateBooking)
          else if (employeeId, date) in db.leaves then Reject(EmployeeOnLeave)
          else if SeatTaken(db.bookings, seat.id, date) then Reject(SeatAlreadyTaken)
          else if (!regular || (!teamDay && tempFloater)) && Before(now, Cutoff(date)) then
            Reject(BeforeCutoff)
          else if !teamDay && regular && !tempFloater then Reject(NotYourTeamDay)
          else Insert(user, seat)
  }

  /** A team-day employee asking for a free regular seat, with no booking and no leave
      that day, is accepted whatever the time. */
  lemma TeamDayRegularAccepted(db: Database, req: BookRequest, now: Instant, seat: Seat)
    requires Complete(req)
    requires req.employeeId.value in db.users &&
             WeekHelper.IsTeamDay(db.users[req.employeeId.value].batch, req.date.value)
    requires SeatByNumber(db.seats, req.seatId.value) == Some(seat) && seat.id <= ApiSeats.REGULAR_SEATS
    requires !HasActive(db.bookings, req.employeeId.value, req.date.value)
    requires (req.employeeId.value, req.date.value) !in db.leaves
    requires !SeatTaken(db.bookings, seat.id, req.date.value)
    ensures DecideBook(db, req, now) == Insert(db.users[req.employeeId.value], seat)
  {
    WeekHelper.TeamDayIsWeekday(db.users[req.employeeId.value].batch, req.date.value);
  }

  /** An accepted booking keeps one booked row per (user, date) and per (seat, date). */
  lemma AcceptKeepsConsistent(db: Database, req: BookRequest, now: Instant, id: int)
    requires Consistent(db.bookings)
    requires DecideBook(db, req, now).Insert?
    ensures Consistent(db.bookings +
      [Booking(id, req.employeeId.value, DecideBook(db, req, now).seat.id, req.date.value, Booked)])
  {
    var d := DecideBook(db, req, now);
    InsertKeepsConsistent(db.bookings, Booking(id, req.employeeId.value, d.seat.id, req.date.value, Booked));
  }

  /** Releasing a booking makes its seat a temporary floater for the date. */
  lemma ReleasedSeatIsTempFloater(rows: seq<Booking>, b: Booking, seat: Seat)
    requires b in rows && b.seat == seat.id && seat.id <= ApiSeats.REGULAR_SEATS && b.status == Booked
    ensures IsTempFloater(CancelRows(rows, ActiveOf(b.user, b.date)), seat, b.date)
  {
    var r := CancelRows(rows, ActiveOf(b.user, b.date));
    var i :| 0 <= i < |rows| && rows[i] == b;
    assert r[i] in r;
  }

  /** POST /api/book: on acceptance insert one booked row under the next key and send
      a `booking` event; a rejection writes and sends nothing. */
  method BookSeat(db: Database, hub: Broadcaster<Notice>, req: BookRequest, now: Instant)
    returns (r: Option<ApiError>)
    requires db.Valid() && hub.Valid()
    modifies db, hub
    ensures db.Valid() && hub.Valid()
    ensures db.users == old(db.users) && db.seats == old(db.seats) && db.leaves == old(db.leaves)
    ensures hub.clients == old(hub.clients)
    ensures OnlyLiveWritten(old(hub.sent), hub.sent, hub.clients)
    ensures old(DecideBook(db, req, now)).Reject? ==>
      r == Some(old(DecideBook(db, req, now)).error) &&
      db.bookings == old(db.bookings) && db.nextId == old(db.nextId) && hub.sent == old(hub.sent)
    ensures old(DecideBook(db, req, now)).Insert? ==>
      r.None? &&
      db.bookings == old(db.bookings) +
        [Booking(old(db.nextId), req.employeeId.value, old(DecideBook(db, req, now)).seat.id,
                 req.date.value, Booked)] &&
      db.nextId == old(db.nextId) + 1 &&
      forall c :: c in hub.clients ==>
        hub.sent[c] == old(hub.sent[c]) + [Event("booking", SeatBooked(req.seatId.value, req.employeeId.value, req.date.value))]
  {
    var decision := DecideBook(db, req, now);
    if decision.Reject? {
      return Some(decision.error);
    }
    var row := Booking(db.nextId, req.employeeId.value, decision.seat.id, req.date.value, Booked);
    InsertKeepsConsistent(db.bookings, row);
    db.bookings := db.bookings + [row];
    db.nextId := db.nextId + 1;
    hub.Publish("booking", SeatBooked(req.seatId.value, req.employeeId.value, req.date.value));
    r := None;
  }

  /** After the release UPDATE the user holds no booked row on the date. */
  lemma ReleaseClearsActive(rows: seq<Booking>, user: int, date: Day)
    ensures !HasActive(CancelRows(rows, ActiveOf(user, date)), user, date)
  {
    CancelIsIdempotent(rows, ActiveOf(user, date));
    forall b | b in CancelRows(rows, ActiveOf(user, date)) ensures !ActiveFor(b, user, date) {
      assert !ActiveOf(user, date)(b);
    }
  }

  /** POST /api/release: flip every booked row of the employee on the date to cancelled;
      not found exactly when there was none. The event names the seat number of the
      first such row joined with its seat. */
  method ReleaseSeat(db: Database, hub: Broadcaster<Notice>, employeeId: Option<int>, date: Option<Day>)
    returns (r: Option<ApiError>)
    requires db.Valid() && hub.Valid()
    modifies db, hub
    ensures db.Valid() && hub.Valid()
    ensures db.users == old(db.users) && db.seats == old(db.seats) && db.leaves == old(db.leaves)
    ensures db.nextId == old(db.nextId) && hub.clients == old(hub.clients)
    ensures OnlyLiveWritten(old(hub.sent), hub.sent, hub.clients)
    ensures (employeeId.None? || date.None?) ==>
      r == Some(MissingFields) && db.bookings == old(db.bookings) && hub.sent == old(hub.sent)
    ensures (employeeId.Some? && date.Some?) ==>
      db.bookings == CancelRows(old(db.bookings), ActiveOf(employeeId.value, date.value)) &&
      !HasActive(db.bookings, employeeId.value, date.value) &&
      (r == Some(NoActiveBooking) <==> !HasActive(old(db.bookings), employeeId.value, date.value)) &&
      (r.Some? ==> r == Some(NoActiveBooking) && hub.sent == old(hub.sent))
    ensures (employeeId.Some? && date.Some? && r.None?) ==>
      var joined := BookingModel.GetUserBooking(old(db.bookings), db.seats, employeeId.value, date.value);
      var seatNumber := if joined.Some? then Some(joined.value.seatNumber) else None;
      forall c :: c in hub.clients ==>
        hub.sent[c] == old(hub.sent[c]) + [Event("booking", SeatReleased(seatNumber, employeeId.value, date.value, false))]
  {
    if employeeId.None? || date.None? {
      return Some(MissingFields);
    }
    var user, day := employeeId.value, date.value;
    var joined := BookingModel.GetUserBooking(db.bookings, db.seats, user, day);
    var hit := ActiveOf(user, day);
    AffectedIffMatch(db.bookings, hit);
    var affected := Affected(db.bookings, hit);
    CancelKeepsConsistent(db.bookings, hit);
    CancelKeepsKeys(db.bookings, hit, db.nextId, db.seats);
    ReleaseClearsActive(db.bookings, user, day);
    db.bookings := CancelRows(db.bookings, hit);
    if affected == 0 {
      return Some(NoActiveBooking);
    }
    var seatNumber := if joined.Some? then Some(joined.value.seatNumber) else None;
    hub.Publish("booking", SeatReleased(seatNumber, user, day, false));
    r := None;
  }

  /** The guard chain of declareLeave, in source order; None lets the request through. */
  function DecideLeave(db: Database, employeeId: Option<int>, date: Option<Day>): (r: Option<ApiError>)
    reads db
    ensures r.None? ==>
      employeeId.Some? && date.Some? && employeeId.value in db.users &&
      WeekHelper.IsTeamDay(db.users[employeeId.value].batch, date.value) &&
      (employeeId.value, date.value) !in db.leaves
    ensures r == Some(LeaveExists) ==>
      employeeId.Some? && date.Some? && (employeeId.value, date.value) in db.leaves
    ensures (employeeId.Some? && date.Some? && employeeId.value in db.users &&
             WeekHelper.IsTeamDay(db.users[employeeId.value].batch, date.value)) ==>
      (r.None? <==> (employeeId.value, date.value) !in db.leaves)
    // Each rejection is reported exactly when the guards before it pass and its own
    // condition holds.
    ensures r == Some(MissingFields) <==> employeeId.None? || date.None?
    ensures r == Some(WeekendDate) <==>
      employeeId.Some? && date.Some? && !WeekHelper.IsWeekday(date.value)
    ensures r == Some(EmployeeNotFound) <==>
      employeeId.Some? && date.Some? && WeekHelper.IsWeekday(date.value) && employeeId.value !in db.users
    ensures r == Some(NotYourTeamDay) <==>
      employeeId.Some? && date.Some? && WeekHelper.IsWeekday(date.value) && employeeId.value in db.users &&
      !WeekHelper.IsTeamDay(db.users[employeeId.value].batch, date.value)
    ensures r == Some(LeaveExists) <==>
      employeeId.Some? && date.Some? && employeeId.value in db.users &&
      WeekHelper.IsTeamDay(db.users[employeeId.value].batch, date.value) &&
      (employeeId.value, date.value) in db.leaves
    ensures r.Some? ==> r.value in {MissingFields, WeekendDate, EmployeeNotFound, NotYourTeamDay, LeaveExists}
  {
    if employeeId.None? || date.None? then Some(MissingFields)
    else if !WeekHelper.IsWeekday(date.value) then Some(WeekendDate)
    else if employeeId.value !in db.users then Some(EmployeeNotFound)
    else if !WeekHelper.IsTeamDay(db.users[employeeId.value].batch, date.value) then Some(NotYourTeamDay)
    else if (employeeId.value, date.value) in db.leaves then Some(LeaveExists)
    else None
  }

  /** POST /api/leave/declare: after the guards, cancel the employee's booking of the
      date (if any, with a `booking` event), insert the leave row, and send a `leave`
      event whose freed seat is that booking's seat number. */
  method DeclareLeave(db: Database, hub: Broadcaster<Notice>, employeeId: Option<int>, date: Option<Day>)
    returns (r: Option<ApiError>, freedSeat: Option<int>)
    requires db.Valid() && hub.Valid()
    modifies db, hub
    ensures db.Valid() && hub.Valid()
    ensures db.users == old(db.users) && db.seats == old(db.seats) && db.nextId == old(db.nextId)
    ensures hub.clients == old(hub.clients)
    ensures OnlyLiveWritten(old(hub.sent), hub.sent, hub.clients)
    ensures r == old(DecideLeave(db, employeeId, date))
    ensures r.Some? ==>
      db.bookings == old(db.bookings) && db.leaves == old(db.leaves) && hub.sent == old(hub.sent) &&
      freedSeat.None?
    ensures r.None? ==>
      var joined := BookingModel.GetUserBooking(old(db.bookings), db.seats, employeeId.value, date.value);
      db.leaves == old(db.leaves) + {(employeeId.value, date.value)} &&
      !HasActive(db.bookings, employeeId.value, date.value) &&
      (joined.None? ==> db.bookings == old(db.bookings) && freedSeat.None?) &&
      (joined.Some? ==>
        db.bookings == CancelRows(old(db.bookings), ById(joined.value.booking.id)) &&
        freedSeat == Some(joined.value.seatNumber))
    ensures r.None? ==> forall c :: c in hub.clients ==>
      hub.sent[c] == old(hub.sent[c]) +
        (if freedSeat.Some? then [Event("booking", SeatReleased(freedSeat, employeeId.value, date.value, true))] else []) +
        [Event("leave", LeaveDeclared(employeeId.value, date.value, freedSeat))]
  {
    r := DecideLeave(db, employeeId, date);
    if r.Some? {
      return r, None;
    }
    var user, day := employeeId.value, date.value;
    var joined := BookingModel.GetUserBooking(db.bookings, db.seats, user, day);
    freedSeat := None;
    if joined.Some? {
      var hit := ById(joined.value.booking.id);
      CancelKeepsConsistent(db.bookings, hit);
      CancelKeepsKeys(db.bookings, hit, db.nextId, db.seats);
      BookingModel.CancelClearsActive(db.bookings, joined.value.booking, hit, user, day);
      db.bookings := CancelRows(db.bookings, hit);
      freedSeat := Some(joined.value.seatNumber);
      hub.Publish("booking", SeatReleased(freedSeat, user, day, true));
    } else {
      BookingModel.UserBookingIffActive(db.bookings, db.seats, user, day);
    }
    db.leaves := db.leaves + {(user, day)};
    hub.Publish("leave", LeaveDeclared(user, day, freedSeat));
  }

  /** POST /api/leave/cancel: delete the leave row; not found exactly when there was
      none; otherwise send a `leave` event. */
  method CancelLeave(db: Database, hub: Broadcaster<Notice>, employeeId: Option<int>, date: Option<Day>)
    returns (r: Option<ApiError>)
    requires hub.Valid()
    modifies db, hub
    ensures hub.Valid() && hub.clients == old(hub.clients)
    ensures OnlyLiveWritten(old(hub.sent), hub.sent, hub.clients)
    ensures db.users == old(db.users) && db.seats == old(db.seats)
    ensures db.bookings == old(db.bookings) && db.nextId == old(db.nextId)
    ensures (employeeId.None? || date.None?) ==>
      r == Some(MissingFields) && db.leaves == old(db.leaves) && hub.sent == old(hub.sent)
    ensures (employeeId.Some? && date.Some?) ==>
      db.leaves == old(db.leaves) - {(employeeId.value, date.value)} &&
      (r == Some(NoLeaveFound) <==> (employeeId.value, date.value) !in old(db.leaves)) &&
      (r.Some? ==> r == Some(NoLeaveFound) && hub.sent == old(hub.sent)) &&
      (r.None? ==> forall c :: c in hub.clients ==>
        hub.sent[c] == old(hub.sent[c]) + [Event("leave", LeaveCancelled(employeeId.value, date.value))])
  {
    if employeeId.None? || date.None? {
      return Some(MissingFields);
    }
    var key := (employeeId.value, date.value);
    var existed := key in db.leaves;
    db.leaves := db.leaves - {key};
    if !existed {
      return Some(NoLeaveFound);
    }
    hub.Publish("leave", LeaveCancelled(employeeId.value, date.value));
    r := None;
  }
}
