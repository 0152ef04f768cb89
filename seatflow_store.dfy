/** The in-memory store of the stand-alone SeatFlow server (mayank/server.js): employees
    and seats with string ids, the bookings list, and the newest-first activity log.
    Loading it from and saving it to data.json is not modelled. */
module SeatFlowStore {
  import opened Common
  import opened Calendar

  datatype Employee = Employee(id: string, name: string, batch: int, email: string)

  datatype MSeat = MSeat(id: string, kind: SeatKind, floor: int)

  /** A booking is 'booked' until released; a released booking stays in the list. */
  datatype BookingStatus = Booked | Released

  datatype MBooking = MBooking(id: string, date: Day, seatId: string, employeeId: string,
                               kind: SeatKind, status: BookingStatus, bookedAt: Instant,
                               releasedAt: Option<Instant>)

  datatype Action = BookedAction | ReleasedAction

  datatype Activity = Activity(action: Action, employeeId: string, seatId: string, date: Day,
                               timestamp: Instant)

  const TOTAL_SEATS := 50
  const REGULAR_SEATS := 40
  const FLOATER_SEATS := 10
  const LOG_LIMIT := 200

  // ---------------------------------------------------------------------------
  // Decimal ids: `String(i).padStart(width, "0")`.

  predicate IsDigit(c: char) {
    '0' <= c <= '9'
  }

  /** `String(n)` for a natural number. */
  function NatToString(n: nat): (s: string)
    ensures |s| >= 1 && forall i :: 0 <= i < |s| ==> IsDigit(s[i])
  {
    if n < 10 then [(48 + n) as char]
    else NatToString(n / 10) + [(48 + n % 10) as char]
  }

  /** The value of a string of decimal digits (empty reads as 0). */
  function DigitsValue(s: string): int
    requires forall i :: 0 <= i < |s| ==> IsDigit(s[i])
  {
    if s == [] then 0
    else DigitsValue(s[..|s| - 1]) * 10 + (s[|s| - 1] as int - 48)
  }

  /** `padStart(width, "0")`. */
  function PadStart(s: string, width: nat): (r: string)
    ensures |r| == if |s| >= width then |s| else width
  {
    if |s| >= width then s else Zeros(width - |s|) + s
  }

  function Zeros(k: nat): string {
    seq(k, _ => '0')
  }

  /** padStart only puts zeros in front. */
  lemma PadStartIsZeros(s: string, width: nat)
    ensures PadStart(s, width) == Zeros(if |s| >= width then 0 else width - |s|) + s
  {
    if |s| >= width {
      assert Zeros(0) + s == s;
    }
  }

  /** Reading back the digits written by NatToString gives the number. */
  lemma {:induction false} NatToStringRoundTrip(n: nat)
    ensures DigitsValue(NatToString(n)) == n
  {
    if n >= 10 {
      var s := NatToString(n);
      assert s[..|s| - 1] == NatToString(n / 10);
      NatToStringRoundTrip(n / 10);
    }
  }

  /** Leading zeros do not change the value. */
  lemma {:induction false} LeadingZeros(k: nat, s: string)
    requires forall i :: 0 <= i < |s| ==> IsDigit(s[i])
    ensures DigitsValue(Zeros(k) + s) == DigitsValue(s)
    decreases |s|
  {
    var z := Zeros(k);
    if s == [] {
      assert z + s == z;
      ZerosValue(k);
    } else {
      var t := z + s;
      assert t[..|t| - 1] == z + s[..|s| - 1];
      LeadingZeros(k, s[..|s| - 1]);
    }
  }

  lemma {:induction false} ZerosValue(k: nat)
    ensures DigitsValue(Zeros(k)) == 0
  {
    if k > 0 {
      var z := Zeros(k);
      assert z[..k - 1] == Zeros(k - 1);
      ZerosValue(k - 1);
    }
  }

  /** A zero-padded decimal id determines its number. */
  lemma PaddedIdInjective(prefix: string, m: nat, n: nat, width: nat)
    requires prefix + PadStart(NatToString(m), width) == prefix + PadStart(NatToString(n), width)
    ensures m == n
  {
    var a, b := PadStart(NatToString(m), width), PadStart(NatToString(n), width);
    assert a == (prefix + a)[|prefix|..] == (prefix + b)[|prefix|..] == b;
    PadStartIsZeros(NatToString(m), width);
    PadStartIsZeros(NatToString(n), width);
    var ka := if |NatToString(m)| >= width then 0 else width - |NatToString(m)|;
    var kb := if |NatToString(n)| >= width then 0 else width - |NatToString(n)|;
    LeadingZeros(ka, NatToString(m));
    LeadingZeros(kb, NatToString(n));
    NatToStringRoundTrip(m);
    NatToStringRoundTrip(n);
  }

  // ---------------------------------------------------------------------------
  // getDefaultData: 80 employees (1..40 in batch 1, 41..80 in batch 2), regular
  // seats R01..R40 (1..20 on floor 1), floater seats F01..F10 on floor 1.

  function DefaultEmployee(i: nat): Employee {
    Employee("EMP" + PadStart(NatToString(i), 3), "Employee " + NatToString(i),
             if i <= 40 then 1 else 2, "emp" + NatToString(i) + "@seatflow.io")
  }

  function RegularSeat(i: nat): MSeat {
    MSeat("R" + PadStart(NatToString(i), 2), Regular, if i <= 20 then 1 else 2)
  }

  function FloaterSeat(i: nat): MSeat {
    MSeat("F" + PadStart(NatToString(i), 2), Floater, 1)
  }

  method DefaultEmployees() returns (employees: seq<Employee>)
    ensures |employees| == 80
    ensures forall k :: 0 <= k < 80 ==> employees[k] == DefaultEmployee(k + 1)
  {
    employees := [];
    var i := 1;
    while i <= 80
      invariant 1 <= i <= 81
      invariant |employees| == i - 1
      invariant forall k :: 0 <= k < i - 1 ==> employees[k] == DefaultEmployee(k + 1)
    {
      employees := employees + [DefaultEmployee(i)];
      i := i + 1;
    }
  }

  method DefaultSeats() returns (seats: seq<MSeat>)
    ensures |seats| == TOTAL_SEATS
    ensures forall k :: 0 <= k < REGULAR_SEATS ==> seats[k] == RegularSeat(k + 1)
    ensures forall k :: REGULAR_SEATS <= k < TOTAL_SEATS ==> seats[k] == FloaterSeat(k - REGULAR_SEATS + 1)
  {
    seats := [];
    var i := 1;
    while i <= REGULAR_SEATS
      invariant 1 <= i <= REGULAR_SEATS + 1
      invariant |seats| == i - 1
      invariant forall k :: 0 <= k < i - 1 ==> seats[k] == RegularSeat(k + 1)
    {
      seats := seats + [RegularSeat(i)];
      i := i + 1;
    }
    i := 1;
    while i <= FLOATER_SEATS
      invariant 1 <= i <= FLOATER_SEATS + 1
      invariant |seats| == REGULAR_SEATS + i - 1
      invariant forall k :: 0 <= k < REGULAR_SEATS ==> seats[k] == RegularSeat(k + 1)
      invariant forall k :: REGULAR_SEATS <= k < REGULAR_SEATS + i - 1 ==> seats[k] == FloaterSeat(k - REGULAR_SEATS + 1)
    {
      seats := seats + [FloaterSeat(i)];
      i := i + 1;
    }
  }

  /** The default employees have distinct ids, and the two batches have 40 each. */
  lemma DefaultEmployeesDistinct(i: nat, j: nat)
    requires 1 <= i <= 80 && 1 <= j <= 80 && i != j
    ensures DefaultEmployee(i).id != DefaultEmployee(j).id
    ensures DefaultEmployee(i).batch == (if i <= 40 then 1 else 2)
  {
    if DefaultEmployee(i).id == DefaultEmployee(j).id {
      PaddedIdInjective("EMP", i, j, 3);
    }
  }

  /** The default seats have distinct ids: regular and floater ids differ in their
      first letter, and within a class the number decides. */
  lemma DefaultSeatsDistinct(i: nat, j: nat)
    requires 1 <= i <= REGULAR_SEATS && 1 <= j <= REGULAR_SEATS
    ensures i != j ==> RegularSeat(i).id != RegularSeat(j).id
    ensures RegularSeat(i).id != FloaterSeat(j).id
    ensures i != j ==> FloaterSeat(i).id != FloaterSeat(j).id
  {
    if RegularSeat(i).id == RegularSeat(j).id {
      PaddedIdInjective("R", i, j, 2);
    }
    assert RegularSeat(i).id[0] == 'R' && FloaterSeat(j).id[0] == 'F';
    if FloaterSeat(i).id == FloaterSeat(j).id {
      PaddedIdInjective("F", i, j, 2);
    }
  }

  // ---------------------------------------------------------------------------
  // The activity log.

  /** The log after addActivity: the entry in front, cut back to the newest 200. */
  function PushActivity(log: seq<Activity>, entry: Activity): (r: seq<Activity>)
    ensures |r| == if |log| + 1 > LOG_LIMIT then LOG_LIMIT else |log| + 1
    ensures r[0] == entry
    ensures forall i :: 1 <= i < |r| ==> r[i] == log[i - 1]
  {
    var grown := [entry] + log;
    if |grown| > LOG_LIMIT then grown[..LOG_LIMIT] else grown
  }

  /** Entries are only ever dropped from the old end: starting from a log within the
      limit, pushing `entries` one by one leaves them newest first, followed by the old
      log, cut to the newest 200. */
  lemma {:induction false} PushAllKeepsNewest(log: seq<Activity>, entries: seq<Activity>)
    requires |log| <= LOG_LIMIT
    ensures var all := Reverse(entries) + log;
            PushAll(log, entries) == all[..if |all| > LOG_LIMIT then LOG_LIMIT else |all|]
    decreases |entries|
  {
    if entries == [] {
      assert Reverse(entries) + log == log;
    } else {
      var last := entries[|entries| - 1];
      var init := entries[..|entries| - 1];
      PushAllKeepsNewest(log, init);
      var a := Reverse(init) + log;
      var m := if |a| > LOG_LIMIT then LOG_LIMIT else |a|;
      assert Reverse(entries) == [last] + Reverse(init);
      assert Reverse(entries) + log == [last] + a;
      var pushed := PushActivity(a[..m], last);
      var all := [last] + a;
      var n := if |all| > LOG_LIMIT then LOG_LIMIT else |all|;
      assert |pushed| == n;
      assert forall i :: 0 <= i < n ==> pushed[i] == all[i];
    }
  }

  /** The log after pushing `entries` in order. */
  function PushAll(log: seq<Activity>, entries: seq<Activity>): seq<Activity>
    decreases |entries|
  {
    if entries == [] then log
    else PushActivity(PushAll(log, entries[..|entries| - 1]), entries[|entries| - 1])
  }

  function Reverse<T>(s: seq<T>): seq<T> {
    if s == [] then [] else [s[|s| - 1]] + Reverse(s[..|s| - 1])
  }

  /** The server's data. */
  class SeatFlowData {
    var employees: seq<Employee>
    var seats: seq<MSeat>
    var bookings: seq<MBooking>
    var activityLog: seq<Activity>

    constructor (employees: seq<Employee>, seats: seq<MSeat>)
      ensures this.employees == employees && this.seats == seats
      ensures bookings == [] && activityLog == []
    {
      this.employees := employees;
      this.seats := seats;
      bookings := [];
      activityLog := [];
    }

    /** addActivity: `unshift` the entry, then truncate the log to 200 entries. */
    method AddActivity(entry: Activity)
      modifies this
      ensures activityLog == PushActivity(old(activityLog), entry)
      ensures employees == old(employees) && seats == old(seats) && bookings == old(bookings)
    {
      activityLog := [entry] + activityLog;
      if |activityLog| > LOG_LIMIT {
        activityLog := activityLog[..LOG_LIMIT];
      }
    }
  }

  /** getDefaultData: the default employees and seats, no bookings, an empty log. */
  method GetDefaultData() returns (data: SeatFlowData)
    ensures fresh(data)
    ensures |data.employees| == 80 && |data.seats| == TOTAL_SEATS
    ensures forall k :: 0 <= k < 80 ==> data.employees[k] == DefaultEmployee(k + 1)
    ensures forall k :: 0 <= k < REGULAR_SEATS ==> data.seats[k] == RegularSeat(k + 1)
    ensures forall k :: REGULAR_SEATS <= k < TOTAL_SEATS ==> data.seats[k] == FloaterSeat(k - REGULAR_SEATS + 1)
    ensures data.bookings == [] && data.activityLog == []
  {
    var employees := DefaultEmployees();
    var seats := DefaultSeats();
    data := new SeatFlowData(employees, seats);
  }
}
