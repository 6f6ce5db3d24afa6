/** The `bookings` table behind the three booking hooks: insert a pending
    booking, update the status of one booking, and list a user's bookings
    newest first. The table is an in-memory map keyed by booking id. */
module Bookings {
  import opened Common

  datatype Status = Pending | Paid | Cancelled

  datatype Booking = Booking(
    id: nat,
    userId: string,
    movieId: string,
    seats: int,
    totalAmount: int,
    status: Status,
    bookedAt: int
  )

  /** The signed-in user of the auth context. */
  datatype User = User(id: string, email: string)

  /** Why a call on the table failed: no signed-in user (an `Error` thrown by
      the create hook), an error reported by the database (which may or may
      not be an `Error` instance), or `.single()` finding no row. */
  datatype Failure =
    | NotLoggedIn
    | StoreError(message: string, isErrorInstance: bool)
    | NoSingleRow

  /** The table's rows are keyed by their own ids, all below the next id the
      table hands out. */
  ghost predicate WellKeyed(rows: map<nat, Booking>, nextId: nat) {
    forall k :: k in rows ==> k < nextId && rows[k].id == k
  }

  class Store {
    var rows: map<nat, Booking>
    var nextId: nat

    ghost predicate Valid()
      reads this
    {
      WellKeyed(rows, nextId)
    }

    constructor ()
      ensures Valid() && rows == map[] && nextId == 0
    {
      rows := map[];
      nextId := 0;
    }

    /** `useCreateBooking`: without a user it fails with "Must be logged in"
        and touches nothing; a failing insert changes nothing; otherwise it
        inserts exactly one `pending` row with the caller's fields under a
        fresh id and returns that row. `bookedAt` is the database's clock. */
    method Create(user: Option<User>, movieId: string, seats: int, totalAmount: int,
                  bookedAt: int, dbError: Option<Failure>)
      returns (r: Result<Booking, Failure>)
      requires Valid()
      modifies this
      ensures Valid()
      ensures user.None? ==> r == Err(NotLoggedIn) && rows == old(rows) && nextId == old(nextId)
      ensures user.Some? && dbError.Some? ==>
                r == Err(dbError.value) && rows == old(rows) && nextId == old(nextId)
      ensures user.Some? && dbError.None? ==>
                && old(nextId) !in old(rows)
                && r == Ok(Booking(old(nextId), user.value.id, movieId, seats, totalAmount, Pending, bookedAt))
                && rows == old(rows)[old(nextId) := r.value]
    {
      if user.None? {
        return Err(NotLoggedIn);
      }
      if dbError.Some? {
        return Err(dbError.value);
      }
      var b := Booking(nextId, user.value.id, movieId, seats, totalAmount, Pending, bookedAt);
      rows := rows[nextId := b];
      nextId := nextId + 1;
      return Ok(b);
    }

    /** `useUpdateBookingStatus`: sets the status of the row with the given id
        and nothing else. A failing statement changes nothing; when no row has
        that id, `.single()` fails and nothing changes. */
    method UpdateStatus(bookingId: nat, status: Status, dbError: Option<Failure>)
      returns (r: Result<Booking, Failure>)
      requires Valid()
      requires status != Pending
      modifies this`rows
      ensures Valid()
      ensures dbError.Some? ==> r == Err(dbError.value) && rows == old(rows)
      ensures dbError.None? && bookingId !in old(rows) ==> r == Err(NoSingleRow) && rows == old(rows)
      ensures dbError.None? && bookingId in old(rows) ==>
                && r == Ok(old(rows)[bookingId].(status := status))
                && rows == old(rows)[bookingId := r.value]
    {
      if dbError.Some? {
        return Err(dbError.value);
      }
      if bookingId !in rows {
        return Err(NoSingleRow);
      }
      var b := rows[bookingId].(status := status);
      rows := rows[bookingId := b];
      return Ok(b);
    }
  }

  /** The rows with ids below n, in id order. */
  function RowsBelow(rows: map<nat, Booking>, n: nat): seq<Booking> {
    if n == 0 then []
    else RowsBelow(rows, n - 1) + (if n - 1 in rows then [rows[n - 1]] else [])
  }

  /** `.eq("user_id", userId)`: the rows of one user, in their order. */
  function OwnedBy(s: seq<Booking>, userId: string): (r: seq<Booking>)
    ensures forall b :: b in r ==> b.userId == userId
    ensures forall b :: multiset(r)[b] == if b.userId == userId then multiset(s)[b] else 0
  {
    if s == [] then []
    else
      var last := s[|s| - 1];
      assert s == s[..|s| - 1] + [last];
      OwnedBy(s[..|s| - 1], userId) + (if last.userId == userId then [last] else [])
  }

  /** Newest first. */
  predicate NewestFirst(s: seq<Booking>) {
    forall i, j :: 0 <= i < j < |s| ==> s[i].bookedAt >= s[j].bookedAt
  }

  /** Places b before the first element that is not newer than it. */
  function InsertByDate(b: Booking, s: seq<Booking>): (r: seq<Booking>)
    ensures multiset(r) == multiset(s) + multiset{b}
    ensures r[0] == b || (|s| > 0 && r[0] == s[0])
  {
    if s == [] then [b]
    else if b.bookedAt >= s[0].bookedAt then [b] + s
    else
      assert s == [s[0]] + s[1..];
      [s[0]] + InsertByDate(b, s[1..])
  }

  /** Inserting into a newest-first list keeps it newest first. */
  lemma {:induction false} InsertKeepsOrder(b: Booking, s: seq<Booking>)
    requires NewestFirst(s)
    ensures NewestFirst(InsertByDate(b, s))
  {
    if s != [] && b.bookedAt < s[0].bookedAt {
      InsertKeepsOrder(b, s[1..]);
    }
  }

  /** `.order("booked_at", { ascending: false })`: the same rows, newest first. */
  function SortNewestFirst(s: seq<Booking>): (r: seq<Booking>)
    ensures NewestFirst(r)
    ensures multiset(r) == multiset(s)
  {
    if s == [] then []
    else
      assert s == [s[0]] + s[1..];
      var rest := SortNewestFirst(s[1..]);
      InsertKeepsOrder(s[0], rest);
      InsertByDate(s[0], rest)
  }

  /** `useBookings`: no user gives the empty list without asking the table; a
      failing query gives its error; otherwise the user's rows, newest first. */
  function ListBookings(rows: map<nat, Booking>, nextId: nat, user: Option<User>,
                        dbError: Option<Failure>): (r: Result<seq<Booking>, Failure>)
    ensures user.None? ==> r == Ok([])
    ensures user.Some? && dbError.Some? ==> r == Err(dbError.value)
    ensures user.Some? && dbError.None? ==> r.Ok? && NewestFirst(r.value)
  {
    match user
    case None => Ok([])
    case Some(u) =>
      if dbError.Some? then Err(dbError.value)
      else Ok(SortNewestFirst(OwnedBy(RowsBelow(rows, nextId), u.id)))
  }

  /** Every stored row occurs once among the rows below the next id, and
      nothing else does. */
  lemma {:induction false} RowsBelowCounts(rows: map<nat, Booking>, nextId: nat, n: nat)
    requires WellKeyed(rows, nextId)
    ensures forall b :: multiset(RowsBelow(rows, n))[b] ==
                        if b.id < n && b.id in rows && rows[b.id] == b then 1 else 0
  {
    if n > 0 {
      RowsBelowCounts(rows, nextId, n - 1);
      var tail := if n - 1 in rows then [rows[n - 1]] else [];
      assert multiset(RowsBelow(rows, n)) == multiset(RowsBelow(rows, n - 1)) + multiset(tail);
    }
  }

  /** A user's list holds each of that user's stored bookings exactly once,
      no other row, newest first. */
  lemma ListIsUsersBookings(rows: map<nat, Booking>, nextId: nat, u: User)
    requires WellKeyed(rows, nextId)
    ensures ListBookings(rows, nextId, Some(u), None).Ok?
    ensures NewestFirst(ListBookings(rows, nextId, Some(u), None).value)
    ensures forall b :: multiset(ListBookings(rows, nextId, Some(u), None).value)[b] ==
                        if b.id in rows && rows[b.id] == b && b.userId == u.id then 1 else 0
  {
    RowsBelowCounts(rows, nextId, nextId);
  }

  /** Creating a booking for a user, then listing, shows the new pending row
      among that user's bookings. */
  lemma CreatedBookingIsListed(rows: map<nat, Booking>, nextId: nat, b: Booking)
    requires WellKeyed(rows, nextId) && b.id == nextId && nextId !in rows
    ensures WellKeyed(rows[nextId := b], nextId + 1)
    ensures b in ListBookings(rows[nextId := b], nextId + 1, Some(User(b.userId, "")), None).value
  {
    var rows' := rows[nextId := b];
    ListIsUsersBookings(rows', nextId + 1, User(b.userId, ""));
    assert multiset(ListBookings(rows', nextId + 1, Some(User(b.userId, "")), None).value)[b] == 1;
  }
}
