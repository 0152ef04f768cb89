/** models/bookingModel.js: reading a user's booking, the booking transaction that takes
    the lowest-numbered free seat, and the guarded cancel. Each transaction is one
    atomic step on the store. */
module BookingModel {
  import opened Common
  import opened Calendar
  import opened Tables

  /** A booking row joined with its seat's visible number. */
  datatype UserBooking = UserBooking(booking: Booking, seatNumber: int)

  /** The rows the JOIN keeps: active for the user and date, with an existing seat. */
  function ActiveJoined(seats: seq<Seat>, user: int, date: Day): Booking -> bool {
    (b: Booking) => ActiveFor(b, user, date) && SeatExists(seats, b.seat)
  }

  /** getUserBooking: the first active booking of the user on the date, joined with its
      seat; none when there is no such row. */
  function GetUserBooking(rows: seq<Booking>, seats: seq<Seat>, user: int, date: Day): (r: Option<UserBooking>)
    ensures r.Some? ==> r.value.booking in rows && ActiveFor(r.value.booking, user, date)
    ensures r.Some? ==> Seat(r.value.booking.seat, r.value.seatNumber) in seats
    ensures r.None? <==> forall b :: b in rows && ActiveFor(b, user, date) ==> !SeatExists(seats, b.seat)
  {
    match Find(rows, ActiveJoined(seats, user, date))
    case None => None
    case Some(b) =>
      match Find(seats, (s: Seat) => s.id == b.seat)
      case Some(s) => Some(UserBooking(b, s.seatNumber))
      case None => None
  }

  /** When every booking names an existing seat, getUserBooking finds a row exactly when
      the user holds a booking on the date. */
  lemma UserBookingIffActive(rows: seq<Booking>, seats: seq<Seat>, user: int, date: Day)
    requires forall i :: 0 <= i < |rows| ==> SeatExists(seats, rows[i].seat)
    ensures GetUserBooking(rows, seats, user, date).Some? <==> HasActive(rows, user, date)
  {
    if HasActive(rows, user, date) {
      var b :| b in rows && ActiveFor(b, user, date);
      var i :| 0 <= i < |rows| && rows[i] == b;
      assert SeatExists(seats, rows[i].seat);
    }
  }

  /** The seat the transaction picks: the free seat with the smallest seat number (the
      first in table order among equals); none when every seat is taken on the date. */
  function LowestFreeSeat(seats: seq<Seat>, rows: seq<Booking>, date: Day): (r: Option<Seat>)
    ensures r.Some? ==> r.value in seats && !SeatTaken(rows, r.value.id, date)
    ensures r.Some? ==> forall s :: s in seats && !SeatTaken(rows, s.id, date) ==>
      r.value.seatNumber <= s.seatNumber
    ensures r.None? <==> forall s :: s in seats ==> SeatTaken(rows, s.id, date)
  {
    if seats == [] then None
    else
      var rest := LowestFreeSeat(seats[1..], rows, date);
      if SeatTaken(rows, seats[0].id, date) then rest
      else match rest
        case None => Some(seats[0])
        case Some(t) => if t.seatNumber < seats[0].seatNumber then rest else Some(seats[0])
  }

  /** The outcome of the booking transaction. */
  datatype BookResult =
    | AlreadyBooked
    | NoSeatsAvailable
    | Success(id: int, seatNumber: int)

  /** What the booking transaction does, from the table before (`rows`, `nextId`) to the
      table after (`rows'`, `nextId'`), with its reported result `r`. */
  ghost predicate BookSeatEffect(rows: seq<Booking>, nextId: int, seats: seq<Seat>, user: int, date: Day,
                                 r: BookResult, rows': seq<Booking>, nextId': int)
  {
    if HasActive(rows, user, date) then
      r == AlreadyBooked && rows' == rows && nextId' == nextId
    else match LowestFreeSeat(seats, rows, date)
      case None => r == NoSeatsAvailable && rows' == rows && nextId' == nextId
      case Some(seat) =>
        r == Success(nextId, seat.seatNumber) &&
        rows' == rows + [Booking(nextId, user, seat.id, date, Booked)] &&
        nextId' == nextId + 1
  }

  /** bookSeat: reject when the user already holds a booking on the date, else reject
      when no seat is free, else insert a booked row for the lowest free seat under the
      next key. A rejection rolls back and writes nothing. */
  method BookSeat(db: Database, user: int, date: Day) returns (r: BookResult)
    requires db.Valid()
    modifies db
    ensures db.Valid()
    ensures db.users == old(db.users) && db.seats == old(db.seats) && db.leaves == old(db.leaves)
    ensures BookSeatEffect(old(db.bookings), old(db.nextId), db.seats, user, date, r, db.bookings, db.nextId)
  {
    if HasActive(db.bookings, user, date) {
      return AlreadyBooked;
    }
    var free := LowestFreeSeat(db.seats, db.bookings, date);
    if free.None? {
      return NoSeatsAvailable;
    }
    var seat := free.value;
    var row := Booking(db.nextId, user, seat.id, date, Booked);
    InsertKeepsConsistent(db.bookings, row);
    db.bookings := db.bookings + [row];
    db.nextId := db.nextId + 1;
    r := Success(row.id, seat.seatNumber);
  }

  /** cancelBooking: flip the user's booked row with this key to cancelled; true iff a
      row was affected. */
  method CancelBooking(db: Database, bookingId: int, user: int) returns (changed: bool)
    requires db.Valid()
    modifies db
    ensures db.Valid()
    ensures db.users == old(db.users) && db.seats == old(db.seats) && db.leaves == old(db.leaves)
    ensures db.nextId == old(db.nextId)
    ensures db.bookings == CancelRows(old(db.bookings), ByIdAndUser(bookingId, user))
    ensures changed <==> exists b :: b in old(db.bookings) && ByIdAndUser(bookingId, user)(b)
  {
    var hit := ByIdAndUser(bookingId, user);
    AffectedIffMatch(db.bookings, hit);
    changed := Affected(db.bookings, hit) > 0;
    CancelKeepsConsistent(db.bookings, hit);
    CancelKeepsKeys(db.bookings, hit, db.nextId, db.seats);
    db.bookings := CancelRows(db.bookings, hit);
  }

  /** Cancelling the same booking twice: the second UPDATE affects no row. */
  method CancelBookingTwice(db: Database, bookingId: int, user: int) returns (first: bool, second: bool)
    requires db.Valid()
    modifies db
    ensures db.Valid()
    ensures first <==> exists b :: b in old(db.bookings) && ByIdAndUser(bookingId, user)(b)
    ensures !second
  {
    first := CancelBooking(db, bookingId, user);
    CancelIsIdempotent(old(db.bookings), ByIdAndUser(bookingId, user));
    second := CancelBooking(db, bookingId, user);
  }

  /** After a successful booking the user holds a booking on the date, so an immediate
      second booking is rejected as AlreadyBooked. */
  lemma BookedRowIsActive(rows: seq<Booking>, id: int, user: int, seat: int, date: Day)
    ensures HasActive(rows + [Booking(id, user, seat, date, Booked)], user, date)
  {
    var b := Booking(id, user, seat, date, Booked);
    assert (rows + [b])[|rows|] == b;
    assert b in rows + [b] && ActiveFor(b, user, date);
  }

  /** Under the uniqueness rule for users, cancelling an active booking of the user on a
      date (by any filter that hits it, such as its key and user) leaves the user with no booking on that date. */
  lemma CancelClearsActive(rows: seq<Booking>, b: Booking, hit: Booking -> bool, user: int, date: Day)
    requires OneBookingPerUserAndDay(rows)
    requires b in rows && ActiveFor(b, user, date) && hit(b)
    ensures !HasActive(CancelRows(rows, hit), user, date)
  {
    var r := CancelRows(rows, hit);
    var j :| 0 <= j < |rows| && rows[j] == b;
    forall c | c in r ensures !ActiveFor(c, user, date) {
      var i :| 0 <= i < |r| && r[i] == c;
      if !hit(rows[i]) && ActiveFor(rows[i], user, date) {
        assert false;
      }
    }
  }
}
