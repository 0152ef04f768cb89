/** models/leaveModel.js: the `leaves` table, one row per (user, date) thanks to its
    unique key, so it is a set of pairs. */
module LeaveModel {
  import opened Calendar
  import opened Tables

  /** hasLeave: does a row exist for the user and date? */
  function HasLeave(db: Database, user: int, date: Day): (r: bool)
    reads db
    ensures r <==> (user, date) in LeavesOn(db.leaves, date)
  {
    (user, date) in db.leaves
  }

  /** The leave rows of one date (`WHERE leave_date = ?`). */
  function LeavesOn(leaves: set<Leave>, date: Day): (r: set<Leave>)
    ensures r <= leaves
    ensures forall l :: l in r <==> l in leaves && l.1 == date
  {
    set l | l in leaves && l.1 == date
  }

  /** countByDate: the number of leave rows for the date. */
  function CountByDate(leaves: set<Leave>, date: Day): (n: nat)
    ensures n <= |leaves|
  {
    SubsetCard(LeavesOn(leaves, date), leaves);
    |LeavesOn(leaves, date)|
  }

  lemma SubsetCard(a: set<Leave>, b: set<Leave>)
    requires a <= b
    ensures |a| <= |b|
  {
    assert b == a + (b - a);
  }

  /** declareLeave: INSERT IGNORE, so declaring an existing leave changes nothing. */
  method DeclareLeave(db: Database, user: int, date: Day)
    modifies db
    ensures db.leaves == old(db.leaves) + {(user, date)}
    ensures HasLeave(db, user, date)
    ensures db.users == old(db.users) && db.seats == old(db.seats)
    ensures db.bookings == old(db.bookings) && db.nextId == old(db.nextId)
  {
    db.leaves := db.leaves + {(user, date)};
  }

  /** cancelLeave: DELETE the row; true iff a row was removed. */
  method CancelLeave(db: Database, user: int, date: Day) returns (removed: bool)
    modifies db
    ensures removed == old(HasLeave(db, user, date))
    ensures db.leaves == old(db.leaves) - {(user, date)}
    ensures !HasLeave(db, user, date)
    ensures db.users == old(db.users) && db.seats == old(db.seats)
    ensures db.bookings == old(db.bookings) && db.nextId == old(db.nextId)
  {
    removed := (user, date) in db.leaves;
    db.leaves := db.leaves - {(user, date)};
  }

  /** Cancelling the same leave twice: the second DELETE finds no row. */
  method CancelLeaveTwice(db: Database, user: int, date: Day) returns (first: bool, second: bool)
    modifies db
    ensures first == old(HasLeave(db, user, date)) && !second
  {
    first := CancelLeave(db, user, date);
    second := CancelLeave(db, user, date);
  }

  /** INSERT IGNORE raises the count of the date by one exactly when the row is new,
      and leaves every other date's count alone. */
  lemma DeclareCount(leaves: set<Leave>, user: int, date: Day, other: Day)
    ensures CountByDate(leaves + {(user, date)}, date) ==
      CountByDate(leaves, date) + (if (user, date) in leaves then 0 else 1)
    ensures other != date ==> CountByDate(leaves + {(user, date)}, other) == CountByDate(leaves, other)
  {
    var after := leaves + {(user, date)};
    assert LeavesOn(after, date) == LeavesOn(leaves, date) + {(user, date)};
    if (user, date) in leaves {
      assert LeavesOn(after, date) == LeavesOn(leaves, date);
    }
    if other != date {
      assert LeavesOn(after, other) == LeavesOn(leaves, other);
    }
  }

  /** DELETE lowers the count of the date by one exactly when a row was removed. */
  lemma CancelCount(leaves: set<Leave>, user: int, date: Day, other: Day)
    ensures CountByDate(leaves - {(user, date)}, date) ==
      CountByDate(leaves, date) - (if (user, date) in leaves then 1 else 0)
    ensures other != date ==> CountByDate(leaves - {(user, date)}, other) == CountByDate(leaves, other)
  {
    var after := leaves - {(user, date)};
    assert LeavesOn(after, date) == LeavesOn(leaves, date) - {(user, date)};
    if (user, date) !in leaves {
      assert LeavesOn(after, date) == LeavesOn(leaves, date);
    }
    if other != date {
      assert LeavesOn(after, other) == LeavesOn(leaves, other);
    }
  }
}
