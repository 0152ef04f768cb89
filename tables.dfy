/** The relational store of the database-backed application: the users, seats,
    bookings and leaves tables, and the row-level facts the queries test.
    A booking row is never deleted: releasing it flips its status to 'cancelled'. */
module Tables {
  import opened Common
  import opened Calendar

  datatype Status = Booked | Cancelled

  /** A row of `users`; only the batch matters to the booking rules. */
  datatype User = User(id: int, batch: int)

  /** A row of `seats`: the key `id` decides the seat's class and floor, and the
      visible `seat_number` is what clients ask for. */
  datatype Seat = Seat(id: int, seatNumber: int)

  /** A row of `bookings`. */
  datatype Booking = Booking(id: int, user: int, seat: int, date: Day, status: Status)

  /** A row of `leaves`: (user_id, leave_date), unique per pair. */
  type Leave = (int, Day)

  /** `user_id = ? AND booking_date = ? AND status = 'booked'` */
  predicate ActiveFor(b: Booking, user: int, date: Day) {
    b.user == user && b.date == date && b.status == Booked
  }

  /** `seat_id = ? AND booking_date = ? AND status = 'booked'` */
  predicate Holds(b: Booking, seat: int, date: Day) {
    b.seat == seat && b.date == date && b.status == Booked
  }

  /** Does the user hold a booking on the date? */
  predicate HasActive(rows: seq<Booking>, user: int, date: Day) {
    exists b :: b in rows && ActiveFor(b, user, date)
  }

  /** Is the seat booked on the date? */
  predicate SeatTaken(rows: seq<Booking>, seat: int, date: Day) {
    exists b :: b in rows && Holds(b, seat, date)
  }

  /** Was a booking of the seat on the date cancelled (the seat is a temporary floater)? */
  predicate HasCancelled(rows: seq<Booking>, seat: int, date: Day) {
    exists b :: b in rows && b.seat == seat && b.date == date && b.status == Cancelled
  }

  /** At most one booked row per (user, date). */
  predicate OneBookingPerUserAndDay(rows: seq<Booking>) {
    forall i, j ::
      (0 <= i < j < |rows| && rows[i].status == Booked && rows[j].status == Booked &&
       rows[i].date == rows[j].date)
      ==> rows[i].user != rows[j].user
  }

  /** At most one booked row per (seat, date). */
  predicate OneBookingPerSeatAndDay(rows: seq<Booking>) {
    forall i, j ::
      (0 <= i < j < |rows| && rows[i].status == Booked && rows[j].status == Booked &&
       rows[i].date == rows[j].date)
      ==> rows[i].seat != rows[j].seat
  }

  predicate Consistent(rows: seq<Booking>) {
    OneBookingPerUserAndDay(rows) && OneBookingPerSeatAndDay(rows)
  }

  /** Booking ids are distinct keys, all below the next AUTO_INCREMENT value. */
  predicate KeysBelow(rows: seq<Booking>, nextId: int) {
    (forall i :: 0 <= i < |rows| ==> 1 <= rows[i].id < nextId) &&
    (forall i, j :: 0 <= i < j < |rows| ==> rows[i].id != rows[j].id)
  }

  predicate SeatExists(seats: seq<Seat>, id: int) {
    exists s :: s in seats && s.id == id
  }

  /** Row filter of `UPDATE bookings SET status = 'cancelled' WHERE id = ? AND user_id = ?
      AND status = 'booked'`. */
  function ByIdAndUser(id: int, user: int): Booking -> bool {
    (b: Booking) => b.id == id && b.user == user && b.status == Booked
  }

  /** Row filter of `UPDATE bookings SET status = 'cancelled' WHERE id = ?`. */
  function ById(id: int): Booking -> bool {
    (b: Booking) => b.id == id
  }

  /** Row filter of `UPDATE bookings SET status = 'cancelled' WHERE user_id = ? AND
      booking_date = ? AND status = 'booked'`. */
  function ActiveOf(user: int, date: Day): Booking -> bool {
    (b: Booking) => ActiveFor(b, user, date)
  }

  /** `UPDATE bookings SET status = 'cancelled' WHERE <hit>`: rows keep their place
      and every field but the status. */
  function CancelRows(rows: seq<Booking>, hit: Booking -> bool): (r: seq<Booking>)
    ensures |r| == |rows|
    ensures forall i :: 0 <= i < |rows| ==>
      r[i] == (if hit(rows[i]) then rows[i].(status := Cancelled) else rows[i])
  {
    seq(|rows|, i requires 0 <= i < |rows| => if hit(rows[i]) then rows[i].(status := Cancelled) else rows[i])
  }

  /** The number of rows an UPDATE with this filter reports as affected. */
  function Affected(rows: seq<Booking>, hit: Booking -> bool): nat {
    Count(rows, hit)
  }

  /** The store. Users and seats are read-only here; bookings grow by INSERT and change
      by status flips; leaves are inserted and deleted. */
  class Database {
    var users: map<int, User>
    var seats: seq<Seat>
    var bookings: seq<Booking>
    var leaves: set<Leave>
    var nextId: int

    /** Table invariants: the two uniqueness rules, distinct keys, and every booking
        referring to an existing seat (a foreign key). */
    ghost predicate Valid()
      reads this
    {
      Consistent(bookings) && KeysBelow(bookings, nextId) && nextId >= 1 &&
      (forall i :: 0 <= i < |bookings| ==> SeatExists(seats, bookings[i].seat))
    }

    constructor (users: map<int, User>, seats: seq<Seat>)
      ensures Valid()
      ensures this.users == users && this.seats == seats
      ensures bookings == [] && leaves == {} && nextId == 1
    {
      this.users := users;
      this.seats := seats;
      bookings := [];
      leaves := {};
      nextId := 1;
    }
  }

  // ---------------------------------------------------------------------------
  // How writes affect the table invariants.

  /** Cancelling rows never breaks the uniqueness rules: it only removes booked rows. */
  lemma CancelKeepsConsistent(rows: seq<Booking>, hit: Booking -> bool)
    requires Consistent(rows)
    ensures Consistent(CancelRows(rows, hit))
  {
    var r := CancelRows(rows, hit);
    forall i, j | 0 <= i < j < |r| && r[i].status == Booked && r[j].status == Booked && r[i].date == r[j].date
      ensures r[i].user != r[j].user && r[i].seat != r[j].seat
    {
      assert r[i] == rows[i] && r[j] == rows[j];
    }
  }

  /** Cancelling rows keeps keys and seat references. */
  lemma CancelKeepsKeys(rows: seq<Booking>, hit: Booking -> bool, nextId: int, seats: seq<Seat>)
    requires KeysBelow(rows, nextId)
    requires forall i :: 0 <= i < |rows| ==> SeatExists(seats, rows[i].seat)
    ensures KeysBelow(CancelRows(rows, hit), nextId)
    ensures forall i :: 0 <= i < |rows| ==> SeatExists(seats, CancelRows(rows, hit)[i].seat)
  {
  }

  /** Inserting a booked row for a user without a booking on that date, on a seat free
      on that date, keeps both uniqueness rules. */
  lemma InsertKeepsConsistent(rows: seq<Booking>, b: Booking)
    requires Consistent(rows)
    requires b.status == Booked && !HasActive(rows, b.user, b.date) && !SeatTaken(rows, b.seat, b.date)
    ensures Consistent(rows + [b])
  {
    var r := rows + [b];
    forall i, j | 0 <= i < j < |r| && r[i].status == Booked && r[j].status == Booked && r[i].date == r[j].date
      ensures r[i].user != r[j].user && r[i].seat != r[j].seat
    {
      if j == |rows| {
        assert r[i] in rows;
        assert !ActiveFor(r[i], b.user, b.date);
        assert !Holds(r[i], b.seat, b.date);
      }
    }
  }

  /** After cancelling every row a filter hits, no booked row is hit any more, and a
      second identical UPDATE changes nothing and affects no row. */
  lemma CancelIsIdempotent(rows: seq<Booking>, hit: Booking -> bool)
    requires forall b :: hit(b) ==> b.status == Booked
    ensures forall b :: b in CancelRows(rows, hit) ==> !hit(b)
    ensures CancelRows(CancelRows(rows, hit), hit) == CancelRows(rows, hit)
    ensures Affected(CancelRows(rows, hit), hit) == 0
  {
    var r := CancelRows(rows, hit);
    forall b | b in r ensures !hit(b) {
      var i :| 0 <= i < |r| && r[i] == b;
    }
    FilterNone(r, hit);
  }

  /** An UPDATE that hits nothing leaves the table as it was. */
  lemma CancelNothing(rows: seq<Booking>, hit: Booking -> bool)
    requires forall b :: b in rows ==> !hit(b)
    ensures CancelRows(rows, hit) == rows
  {
  }

  /** An UPDATE reports an affected row exactly when some row matches its filter. */
  lemma AffectedIffMatch(rows: seq<Booking>, hit: Booking -> bool)
    ensures Affected(rows, hit) > 0 <==> exists b :: b in rows && hit(b)
  {
    var f := Filter(rows, hit);
    if exists b :: b in rows && hit(b) {
      var b :| b in rows && hit(b);
      assert b in f;
    }
    if |f| > 0 {
      assert f[0] in f;
    }
  }
}
