/** controllers/bookingController.js: the server-rendered booking form. A chain of
    early-return guards in front of the booking transaction; today is the day of `now`. */
module BookingController {
  import opened Common
  import opened Calendar
  import opened Tables
  import WeekHelper
  import SeatModel
  import BookingModel

  datatype BookRejection = Weekend | Full | BeforeFloatingOpens

  /** The guards of bookSeat, in source order: a weekend, then no availability left
      today, then a non-team day before 15:00. None lets the request through. */
  function BookGate(db: Database, batch: int, now: Instant, env: Option<int>): (r: Option<BookRejection>)
    reads db
    ensures !WeekHelper.IsWeekday(now.day) ==> r == Some(Weekend)
    ensures (WeekHelper.IsWeekday(now.day) &&
             SeatModel.GetAvailability(db, now.day, env).available <= 0) ==> r == Some(Full)
    ensures r == Some(BeforeFloatingOpens) <==>
      (WeekHelper.IsWeekday(now.day) && SeatModel.GetAvailability(db, now.day, env).available > 0 &&
       !WeekHelper.IsTeamDay(batch, now.day) && now.minute < 15 * 60)
    ensures r.None? <==>
      (WeekHelper.IsWeekday(now.day) && SeatModel.GetAvailability(db, now.day, env).available > 0 &&
       (WeekHelper.IsTeamDay(batch, now.day) || now.minute >= 15 * 60))
  {
    if !WeekHelper.IsWeekday(now.day) then Some(Weekend)
    else if SeatModel.GetAvailability(db, now.day, env).available <= 0 then Some(Full)
    else if !WeekHelper.IsTeamDay(batch, now.day) && !WeekHelper.CanBookFloating(now) then
      Some(BeforeFloatingOpens)
    else None
  }

  /** A team-day employee is never turned away for the hour. */
  lemma TeamDayNeverTimeChecked(db: Database, batch: int, now: Instant, env: Option<int>)
    requires WeekHelper.IsTeamDay(batch, now.day)
    ensures BookGate(db, batch, now, env) != Some(BeforeFloatingOpens)
    ensures BookGate(db, batch, now, env) == Some(Full) <==>
      SeatModel.GetAvailability(db, now.day, env).available <= 0
  {
    WeekHelper.TeamDayIsWeekday(batch, now.day);
  }

  datatype BookOutcome = Rejected(reason: BookRejection) | Delegated(result: BookingModel.BookResult)

  /** bookSeat: a rejected request writes nothing; otherwise the outcome is exactly the
      booking transaction's for the user and today. */
  method BookSeat(db: Database, user: User, now: Instant, env: Option<int>) returns (o: BookOutcome)
    requires db.Valid()
    modifies db
    ensures db.Valid()
    ensures db.users == old(db.users) && db.seats == old(db.seats) && db.leaves == old(db.leaves)
    ensures old(BookGate(db, user.batch, now, env)).Some? ==>
      o == Rejected(old(BookGate(db, user.batch, now, env)).value) &&
      db.bookings == old(db.bookings) && db.nextId == old(db.nextId)
    ensures old(BookGate(db, user.batch, now, env)).None? ==>
      o.Delegated? &&
      BookingModel.BookSeatEffect(old(db.bookings), old(db.nextId), db.seats, user.id, now.day,
                                  o.result, db.bookings, db.nextId)
  {
    var gate := BookGate(db, user.batch, now, env);
    if gate.Some? {
      return Rejected(gate.value);
    }
    var result := BookingModel.BookSeat(db, user.id, now.day);
    o := Delegated(result);
  }

  datatype CancelOutcome = InvalidBooking | CancelledOk | NotCancelled

  /** cancelBooking: without a booking id nothing is touched; otherwise the guarded
      cancel runs and its answer is reported. */
  method CancelBooking(db: Database, user: User, bookingId: Option<int>) returns (o: CancelOutcome)
    requires db.Valid()
    modifies db
    ensures db.Valid()
    ensures db.users == old(db.users) && db.seats == old(db.seats) && db.leaves == old(db.leaves)
    ensures db.nextId == old(db.nextId)
    ensures bookingId.None? ==> o == InvalidBooking && db.bookings == old(db.bookings)
    ensures bookingId.Some? ==>
      db.bookings == CancelRows(old(db.bookings), ByIdAndUser(bookingId.value, user.id)) &&
      (o == CancelledOk <==> exists b :: b in old(db.bookings) && ByIdAndUser(bookingId.value, user.id)(b)) &&
      o != InvalidBooking
  {
    if bookingId.None? {
      return InvalidBooking;
    }
    var changed := BookingModel.CancelBooking(db, bookingId.value, user.id);
    o := if changed then CancelledOk else NotCancelled;
  }
}
