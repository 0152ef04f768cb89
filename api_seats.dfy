/** The read-only projections of controllers/apiController.js: the seat map of one date
    with its statistics (GET /api/seats) and the schedule summary (GET /api/schedule).
    Seats with key 1..40 are regular, the rest floaters; keys 1..20 are on floor 1. */
module ApiSeats {
  import opened Common
  import opened Calendar
  import opened Tables
  import WeekHelper
  import SeatModel
  import LeaveModel

  const REGULAR_SEATS := 40
  const FLOATER_SEATS := 10

  /** `booking_date = ? AND status = 'cancelled'` */
  function CancelledOnDate(date: Day): Booking -> bool {
    (b: Booking) => b.date == date && b.status == Cancelled
  }

  /** The holder `bookedMap` ends up with for a seat: the booked rows of the date are
      written into the map in table order, so the last one wins. */
  function LastHolder(rows: seq<Booking>, seat: int, date: Day): (r: Option<int>)
    ensures r.Some? <==> SeatTaken(rows, seat, date)
    ensures r.Some? ==> exists b :: b in rows && Holds(b, seat, date) && b.user == r.value
  {
    if rows == [] then None
    else
      var last := rows[|rows| - 1];
      if Holds(last, seat, date) then Some(last.user)
      else
        var r := LastHolder(rows[..|rows| - 1], seat, date);
        assert forall b :: b in rows[..|rows| - 1] ==> b in rows;
        assert forall b :: b in rows ==> b in rows[..|rows| - 1] || b == last;
        r
  }

  /** Under the uniqueness rule for seats the last-wins holder is the only holder. */
  lemma HolderIsUnique(rows: seq<Booking>, seat: int, date: Day, b: Booking)
    requires OneBookingPerSeatAndDay(rows)
    requires b in rows && Holds(b, seat, date)
    ensures LastHolder(rows, seat, date) == Some(b.user)
  {
    var h := LastHolder(rows, seat, date);
    var c :| c in rows && Holds(c, seat, date) && c.user == h.value;
    var i :| 0 <= i < |rows| && rows[i] == b;
    var j :| 0 <= j < |rows| && rows[j] == c;
    if i < j {
      assert rows[i].seat != rows[j].seat;
    } else if j < i {
      assert rows[j].seat != rows[i].seat;
    }
  }

  /** One entry of the seat map. */
  datatype SeatView = SeatView(id: int, kind: SeatKind, floor: int, booked: bool,
                               bookedBy: Option<int>, tempFloater: bool)

  /** The entry for one seat: the visible number, class and floor from the key, the
      holder from `bookedMap` (a user id of 0 is falsy and reads as not booked), and
      the temporary-floater flag from any cancelled row of the seat on the date. */
  function ProjectSeat(s: Seat, rows: seq<Booking>, date: Day): (v: SeatView)
    ensures v.id == s.seatNumber
    ensures v.kind == Regular <==> s.id <= REGULAR_SEATS
    ensures v.floor == 1 <==> s.id <= 20
    ensures v.floor == 1 || v.floor == 2
    ensures v.booked ==> SeatTaken(rows, s.id, date)
    ensures v.bookedBy.Some? <==> v.booked
    ensures v.bookedBy.Some? ==> exists b :: b in rows && Holds(b, s.id, date) && b.user == v.bookedBy.value
    ensures v.tempFloater <==> HasCancelled(rows, s.id, date)
  {
    var holder := LastHolder(rows, s.id, date);
    var booked := holder.Some? && holder.value != 0;
    SeatView(s.seatNumber, if s.id <= REGULAR_SEATS then Regular else Floater,
             if s.id <= 20 then 1 else 2, booked,
             if booked then holder else None,
             exists b :: b in rows && b.seat == s.id && b.date == date && b.status == Cancelled)
  }

  /** With non-zero user ids a seat shows as booked exactly when a booked row holds it. */
  lemma BookedIffTaken(s: Seat, rows: seq<Booking>, date: Day)
    requires forall b :: b in rows ==> b.user != 0
    ensures ProjectSeat(s, rows, date).booked <==> SeatTaken(rows, s.id, date)
  {
    var holder := LastHolder(rows, s.id, date);
    if holder.Some? {
      var b :| b in rows && Holds(b, s.id, date) && b.user == holder.value;
    }
  }

  /** A seat whose booking was released and then booked again shows both as booked and
      as a temporary floater: the flag looks at any cancelled row of the date, whatever
      happened after it. */
  lemma TempFloaterEvenWhenRebooked(s: Seat, rows: seq<Booking>, date: Day, released: Booking, rebooked: Booking)
    requires forall b :: b in rows ==> b.user != 0
    requires released in rows && released.seat == s.id && released.date == date && released.status == Cancelled
    requires rebooked in rows && Holds(rebooked, s.id, date)
    ensures ProjectSeat(s, rows, date).booked && ProjectSeat(s, rows, date).tempFloater
  {
    BookedIffTaken(s, rows, date);
  }

  /** The seat list, in the order of the seat rows given (the query sorts them by key). */
  function SeatList(seats: seq<Seat>, rows: seq<Booking>, date: Day): (r: seq<SeatView>)
    ensures |r| == |seats|
    ensures forall i :: 0 <= i < |seats| ==> r[i] == ProjectSeat(seats[i], rows, date)
  {
    seq(|seats|, i requires 0 <= i < |seats| => ProjectSeat(seats[i], rows, date))
  }

  /** `seats.find(s => s.id === b.seat_id)` succeeds and the seat is regular. */
  function OnRegularSeat(seats: seq<Seat>): Booking -> bool {
    (b: Booking) => SeatExists(seats, b.seat) && b.seat <= REGULAR_SEATS
  }

  /** `seats.find(s => s.id === b.seat_id)` succeeds and the seat is a floater. */
  function OnFloaterSeat(seats: seq<Seat>): Booking -> bool {
    (b: Booking) => SeatExists(seats, b.seat) && b.seat > REGULAR_SEATS
  }

  function OnKnownSeat(seats: seq<Seat>): Booking -> bool {
    (b: Booking) => SeatExists(seats, b.seat)
  }

  datatype Stats = Stats(totalSeats: int, regularSeats: int, floaterSeats: int,
                         bookedRegular: nat, bookedFloater: nat, availableFloaters: int,
                         releasedSeats: nat, totalBooked: nat, onLeave: nat)

  /** The leave rows of the date whose user exists (the JOIN with users). */
  function LeavesJoined(leaves: set<Leave>, users: map<int, User>, date: Day): (r: set<Leave>)
    ensures r <= LeaveModel.LeavesOn(leaves, date)
    ensures forall l :: l in r <==> l in leaves && l.1 == date && l.0 in users
  {
    set l | l in leaves && l.1 == date && l.0 in users
  }

  /** The statistics block of the seat map. */
  function SeatStats(db: Database, date: Day, env: Option<int>): (st: Stats)
    reads db
    ensures st.totalSeats == SeatModel.TotalSeats(env)
    ensures st.regularSeats == REGULAR_SEATS && st.floaterSeats == FLOATER_SEATS
    ensures st.totalBooked == SeatModel.GetAvailability(db, date, env).booked
    ensures st.releasedSeats == Count(db.bookings, CancelledOnDate(date))
    ensures st.availableFloaters == FLOATER_SEATS - st.bookedFloater + st.releasedSeats
    ensures st.bookedRegular + st.bookedFloater <= st.totalBooked
    ensures st.onLeave <= LeaveModel.CountByDate(db.leaves, date)
    ensures st.onLeave == |LeavesJoined(db.leaves, db.users, date)|
    ensures st.bookedRegular == Count(Filter(db.bookings, SeatModel.BookedOnDate(date)), OnRegularSeat(db.seats))
    ensures st.bookedFloater == Count(Filter(db.bookings, SeatModel.BookedOnDate(date)), OnFloaterSeat(db.seats))
  {
    var booked := Filter(db.bookings, SeatModel.BookedOnDate(date));
    var regular := Count(booked, OnRegularSeat(db.seats));
    var floater := Count(booked, OnFloaterSeat(db.seats));
    var released := Count(db.bookings, CancelledOnDate(date));
    var joined := LeavesJoined(db.leaves, db.users, date);
    CountSplit(booked, OnRegularSeat(db.seats), OnFloaterSeat(db.seats), OnKnownSeat(db.seats));
    LeaveModel.SubsetCard(joined, LeaveModel.LeavesOn(db.leaves, date));
    Stats(SeatModel.TotalSeats(env), REGULAR_SEATS, FLOATER_SEATS, regular, floater,
          FLOATER_SEATS - floater + released, released, |booked|, |joined|)
  }

  /** When every booking names an existing seat, each booked row is counted as exactly
      one of regular or floater. */
  lemma StatsSplitBooked(db: Database, date: Day, env: Option<int>)
    requires forall i :: 0 <= i < |db.bookings| ==> SeatExists(db.seats, db.bookings[i].seat)
    ensures SeatStats(db, date, env).bookedRegular + SeatStats(db, date, env).bookedFloater ==
      SeatStats(db, date, env).totalBooked
  {
    var booked := Filter(db.bookings, SeatModel.BookedOnDate(date));
    forall b | b in booked ensures OnKnownSeat(db.seats)(b) {
      var i :| 0 <= i < |db.bookings| && db.bookings[i] == b;
    }
    FilterAll(booked, OnKnownSeat(db.seats));
    CountSplit(booked, OnRegularSeat(db.seats), OnFloaterSeat(db.seats), OnKnownSeat(db.seats));
  }

  /** When every user on leave exists, the seat map's leave count is countByDate. */
  lemma OnLeaveIsCountByDate(db: Database, date: Day, env: Option<int>)
    requires forall l :: l in db.leaves ==> l.0 in db.users
    ensures SeatStats(db, date, env).onLeave == LeaveModel.CountByDate(db.leaves, date)
  {
    assert LeavesJoined(db.leaves, db.users, date) == LeaveModel.LeavesOn(db.leaves, date);
  }

  /** The batch shown as owning a date: none at the weekend, else the batch whose team
      day it is (batch 1 when isTeamDay(1, d), otherwise batch 2). */
  function OwningBatch(d: Day): (r: Option<int>)
    ensures r.None? <==> DayOfWeek(d) == SUNDAY || DayOfWeek(d) == SATURDAY
    ensures r.Some? ==> WeekHelper.IsTeamDay(r.value, d)
    ensures r.Some? ==> forall b :: WeekHelper.IsTeamDay(b, d) ==> b == r.value
  {
    var w := DayOfWeek(d);
    if w == SUNDAY || w == SATURDAY then None
    else if WeekHelper.IsTeamDay(1, d) then Some(1)
    else Some(2)
  }

  /** The summary of GET /api/schedule (and the header of GET /api/seats). */
  datatype ScheduleView = ScheduleView(date: Day, isWeekend: bool, owningBatch: Option<int>, weekNumber: int)

  function Schedule(d: Day): (v: ScheduleView)
    ensures v.isWeekend <==> v.owningBatch.None?
    ensures v.weekNumber == 1
    ensures v.owningBatch.Some? ==> WeekHelper.IsTeamDay(v.owningBatch.value, d)
    ensures v.date == d && v.owningBatch == OwningBatch(d)
    ensures v.isWeekend <==> DayOfWeek(d) == SUNDAY || DayOfWeek(d) == SATURDAY
  {
    var w := DayOfWeek(d);
    ScheduleView(d, w == SUNDAY || w == SATURDAY, OwningBatch(d), WeekHelper.GetWeekNumber(d))
  }

  /** The whole response of GET /api/seats. */
  datatype SeatMap = SeatMap(header: ScheduleView, weekParity: int, seats: seq<SeatView>, stats: Stats)

  function GetSeats(db: Database, date: Day, env: Option<int>): (m: SeatMap)
    reads db
    ensures m.header == Schedule(date) && m.weekParity == m.header.weekNumber
    ensures |m.seats| == |db.seats|
    ensures forall i :: 0 <= i < |db.seats| ==> m.seats[i] == ProjectSeat(db.seats[i], db.bookings, date)
    ensures m.stats == SeatStats(db, date, env)
  {
    var header := Schedule(date);
    SeatMap(header, header.weekNumber, SeatList(db.seats, db.bookings, date), SeatStats(db, date, env))
  }
}
