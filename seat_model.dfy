/** models/seatModel.js: availability is not stored; it is the configured number of
    seats minus the number of booked rows for the date. */
module SeatModel {
  import opened Common
  import opened Calendar
  import opened Tables

  /** `parseInt(process.env.TOTAL_SEATS) || 50`: an unset or unparsable variable
      (None, NaN in the source) and a value of 0 (falsy) both give the default 50. */
  function TotalSeats(env: Option<int>): (n: int)
    ensures env.None? ==> n == 50
    ensures env.Some? && env.value != 0 ==> n == env.value
    ensures n != 0
    ensures env == Some(0) ==> n == 50
  {
    match env
    case Some(v) => if v != 0 then v else 50
    case None => 50
  }

  datatype Availability = Availability(total: int, booked: nat, available: int)

  /** `booking_date = ? AND status = 'booked'` */
  function BookedOnDate(date: Day): Booking -> bool {
    (b: Booking) => b.date == date && b.status == Booked
  }

  /** getAvailability: the total, the booked count for the date, and their difference. */
  function GetAvailability(db: Database, date: Day, env: Option<int>): (a: Availability)
    reads db
    ensures a.total == TotalSeats(env)
    ensures a.booked == |Filter(db.bookings, BookedOnDate(date))|
    ensures a.available + a.booked == a.total
    ensures a.available <= 0 <==> a.booked >= a.total
  {
    var booked := Count(db.bookings, BookedOnDate(date));
    Availability(TotalSeats(env), booked, TotalSeats(env) - booked)
  }

  /** Inserting a booked row for the date takes exactly one seat from the availability
      of that date and none from any other date. */
  lemma InsertTakesOneSeat(rows: seq<Booking>, b: Booking, date: Day)
    requires b.status == Booked
    ensures Count(rows + [b], BookedOnDate(date)) ==
      Count(rows, BookedOnDate(date)) + (if b.date == date then 1 else 0)
  {
    FilterAppend(rows, [b], BookedOnDate(date));
    assert Filter([b], BookedOnDate(date)) == (if b.date == date then [b] else []);
  }

  /** Cancelling booked rows frees as many seats of the date as rows it hit on that date. */
  lemma {:induction false} CancelFreesSeats(rows: seq<Booking>, hit: Booking -> bool, date: Day)
    requires forall x :: hit(x) ==> x.status == Booked
    ensures Count(CancelRows(rows, hit), BookedOnDate(date)) + Count(rows, (x: Booking) => hit(x) && x.date == date)
      == Count(rows, BookedOnDate(date))
  {
    if rows != [] {
      var r := CancelRows(rows, hit);
      assert r[1..] == CancelRows(rows[1..], hit);
      CancelFreesSeats(rows[1..], hit, date);
    }
  }
}
