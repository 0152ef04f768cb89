/** controllers/leaveController.js: declaring and cancelling today's leave from the
    server-rendered dashboard. Declaring cancels today's booking first, then inserts the
    leave row; it does not check for an existing leave. */
module LeaveController {
  import opened Common
  import opened Calendar
  import opened Tables
  import WeekHelper
  import BookingModel
  import LeaveModel

  datatype LeaveRejection = Weekend | NotTeamDay

  /** The guards of declareLeave, in source order. */
  function LeaveGate(batch: int, today: Day): (r: Option<LeaveRejection>)
    ensures r == Some(Weekend) <==> !WeekHelper.IsWeekday(today)
    ensures r == Some(NotTeamDay) <==> WeekHelper.IsWeekday(today) && !WeekHelper.IsTeamDay(batch, today)
    ensures r.None? <==> WeekHelper.IsTeamDay(batch, today)
  {
    if !WeekHelper.IsWeekday(today) then Some(Weekend)
    else if !WeekHelper.IsTeamDay(batch, today) then Some(NotTeamDay)
    else None
  }

  datatype DeclareOutcome = Rejected(reason: LeaveRejection) | Declared

  /** declareLeave: a rejection writes nothing. Otherwise today's booking, if any, is
      cancelled, and then the leave row is inserted, so the user ends the day on leave
      and without a booking; a declaration already made is accepted again. */
  method DeclareLeave(db: Database, user: User, now: Instant) returns (o: DeclareOutcome)
    requires db.Valid()
    modifies db
    ensures db.Valid()
    ensures db.users == old(db.users) && db.seats == old(db.seats) && db.nextId == old(db.nextId)
    ensures LeaveGate(user.batch, now.day).Some? ==>
      o == Rejected(LeaveGate(user.batch, now.day).value) &&
      db.bookings == old(db.bookings) && db.leaves == old(db.leaves)
    ensures LeaveGate(user.batch, now.day).None? ==>
      o == Declared &&
      db.leaves == old(db.leaves) + {(user.id, now.day)} &&
      !HasActive(db.bookings, user.id, now.day) &&
      |db.bookings| == |old(db.bookings)| &&
      (forall i :: 0 <= i < |db.bookings| ==>
        db.bookings[i] == old(db.bookings)[i] || old(db.bookings)[i].user == user.id)
    // Exactly the booking getUserBooking finds is cancelled, by its key; no other row changes.
    ensures LeaveGate(user.batch, now.day).None? ==>
      var found := BookingModel.GetUserBooking(old(db.bookings), old(db.seats), user.id, now.day);
      (found.Some? ==> db.bookings == CancelRows(old(db.bookings), ByIdAndUser(found.value.booking.id, user.id))) &&
      (found.None? ==> db.bookings == old(db.bookings))
  {
    var gate := LeaveGate(user.batch, now.day);
    if gate.Some? {
      return Rejected(gate.value);
    }
    var today := now.day;
    var booking := BookingModel.GetUserBooking(db.bookings, db.seats, user.id, today);
    if booking.Some? {
      ghost var before := db.bookings;
      var _ := BookingModel.CancelBooking(db, booking.value.booking.id, user.id);
      BookingModel.CancelClearsActive(before, booking.value.booking,
        ByIdAndUser(booking.value.booking.id, user.id), user.id, today);
    } else {
      BookingModel.UserBookingIffActive(db.bookings, db.seats, user.id, today);
    }
    LeaveModel.DeclareLeave(db, user.id, today);
    o := Declared;
  }

  /** Declaring leave twice on a team day: both succeed and one leave row remains. */
  method DeclareLeaveTwice(db: Database, user: User, now: Instant) returns (first: DeclareOutcome, second: DeclareOutcome)
    requires db.Valid() && WeekHelper.IsTeamDay(user.batch, now.day)
    modifies db
    ensures first == Declared && second == Declared
    ensures db.leaves == old(db.leaves) + {(user.id, now.day)}
  {
    first := DeclareLeave(db, user, now);
    second := DeclareLeave(db, user, now);
  }

  datatype CancelOutcome = LeaveCancelled | NoLeaveFound

  /** cancelLeave: report an error exactly when there was no leave for today. */
  method CancelLeave(db: Database, user: User, now: Instant) returns (o: CancelOutcome)
    modifies db
    ensures o == NoLeaveFound <==> (user.id, now.day) !in old(db.leaves)
    ensures db.leaves == old(db.leaves) - {(user.id, now.day)}
    ensures db.users == old(db.users) && db.seats == old(db.seats)
    ensures db.bookings == old(db.bookings) && db.nextId == old(db.nextId)
  {
    var cancelled := LeaveModel.CancelLeave(db, user.id, now.day);
    o := if cancelled then LeaveCancelled else NoLeaveFound;
  }
}
