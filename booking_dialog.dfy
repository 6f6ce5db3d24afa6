/** The booking dialog: a ticket stepper, the derived price and total, and
    the submit protocol (auth check, capacity check, create a pending
    booking, pay, mark it paid, confirm) with its revert on failure. */
module BookingDialog {
  import opened Common
  import opened Movies
  import opened Bookings

  datatype Step = Seats | Paying | Confirmed

  /** What a handler asks of the outside world: a toast, the parent's
      `onOpenChange(false)`, or a navigation. */
  datatype Effect =
    | ToastError(message: string)
    | ToastConfirmation(email: string, seats: int, title: string, total: int)
    | RequestClose
    | NavigateTo(path: string)

  const DefaultPrice: int := 250
  const MaxTicketsPerBooking: int := 10

  /** The ticket price: the movie's own price when it has one, else 250. */
  function UnitPrice(m: Movie): (r: int)
    ensures m.price.Some? ==> r == m.price.value
    ensures m.price.None? ==> r == DefaultPrice
  {
    m.price.GetOr(DefaultPrice)
  }

  /** The stepper's ceiling: the movie's available seats (none when unknown),
      and never more than 10. */
  function MaxSeats(m: Movie): (r: int)
    ensures r <= MaxTicketsPerBooking
    ensures m.availableSeats.Some? ==> r <= m.availableSeats.value
    ensures m.availableSeats.None? ==> r == 0
    ensures r == MaxTicketsPerBooking || r == m.availableSeats.GetOr(0)
  {
    Min(m.availableSeats.GetOr(0), MaxTicketsPerBooking)
  }

  function Total(seats: int, m: Movie): int {
    seats * UnitPrice(m)
  }

  /** The total is linear in the ticket count: one more ticket costs one
      more unit price. */
  lemma TotalStep(seats: int, m: Movie)
    ensures Total(seats + 1, m) == Total(seats, m) + UnitPrice(m)
    ensures Total(1, m) == UnitPrice(m)
  {
  }

  /** The "+" button: disabled at the ceiling, otherwise one ticket more,
      capped at the ceiling. */
  function Incremented(seats: int, maxSeats: int): (r: int)
    ensures seats >= maxSeats ==> r == seats
    ensures seats < maxSeats ==> r == seats + 1
  {
    if seats >= maxSeats then seats else Min(maxSeats, seats + 1)
  }

  /** The "−" button: disabled at one ticket, otherwise one ticket fewer,
      never below one. */
  function Decremented(seats: int): (r: int)
    ensures seats <= 1 ==> r == seats
    ensures seats > 1 ==> r == seats - 1
  {
    if seats <= 1 then seats else Max(1, seats - 1)
  }

  /** A "+" that was enabled is undone by a "−", and the other way round. */
  lemma StepperInverse(seats: int, maxSeats: int)
    requires seats >= 1
    ensures seats < maxSeats ==> Decremented(Incremented(seats, maxSeats)) == seats
    ensures seats > 1 && seats - 1 < maxSeats ==> Incremented(Decremented(seats), maxSeats) == seats
  {
  }

  /** What the catch block shows: the message of an `Error`, else
      "Booking failed". */
  function ShownMessage(f: Failure): (r: string)
    ensures f == NotLoggedIn ==> r == "Must be logged in"
    ensures f.StoreError? && f.isErrorInstance ==> r == f.message
    ensures f.StoreError? && !f.isErrorInstance ==> r == "Booking failed"
  {
    match f
    case NotLoggedIn => "Must be logged in"
    case StoreError(message, isErrorInstance) => if isErrorInstance then message else "Booking failed"
    case NoSingleRow => "Booking failed"
  }

  /** One mounted dialog for one movie: its step and its ticket count. */
  class Dialog {
    const movie: Movie
    var seats: int
    var step: Step

    /** At least one ticket, and more than one only within the ceiling. */
    ghost predicate Valid()
      reads this
    {
      seats >= 1 && (seats == 1 || seats <= MaxSeats(movie))
    }

    constructor (movie: Movie)
      ensures Valid() && this.movie == movie && seats == 1 && step == Seats
    {
      this.movie := movie;
      seats := 1;
      step := Seats;
    }

    method Increment()
      requires Valid() && step == Seats
      modifies this`seats
      ensures Valid()
      ensures seats == Incremented(old(seats), MaxSeats(movie))
    {
      if seats >= MaxSeats(movie) {
        return;
      }
      seats := Min(MaxSeats(movie), seats + 1);
    }

    method Decrement()
      requires Valid() && step == Seats
      modifies this`seats
      ensures Valid()
      ensures seats == Decremented(old(seats))
    {
      if seats <= 1 {
        return;
      }
      seats := Max(1, seats - 1);
    }

    /** `handleClose`, from any step: back to the seats step with one ticket,
        and the dialog asks to be closed. */
    method Close() returns (e: Effect)
      modifies this
      ensures Valid()
      ensures step == Seats && seats == 1 && e == RequestClose
    {
      step := Seats;
      seats := 1;
      e := RequestClose;
    }

    /** `handleBook` up to the payment delay. `createError` is the outcome
        of the insert and `bookedAt` the table's clock.
        - No user: nothing is created, step and tickets stay, the dialog asks
          to close and the page goes to "/auth".
        - No seats: nothing is created and the step stays `Seats`.
        - Create fails: nothing is created, the error is shown, step `Seats`.
        - Otherwise one pending booking with the current tickets and total is
          created, it is returned, and the step is `Paying`. */
    method BeginBook(user: Option<User>, store: Store, bookedAt: int, createError: Option<Failure>)
      returns (effects: seq<Effect>, booking: Option<Booking>)
      requires Valid() && step == Seats && store.Valid()
      modifies this`step, store
      ensures Valid() && store.Valid() && seats == old(seats)
      ensures user.None? ==>
                && effects == [ToastError("Please sign in to book tickets"), RequestClose, NavigateTo("/auth")]
                && booking == None && step == Seats && store.rows == old(store.rows)
      ensures user.Some? && MaxSeats(movie) <= 0 ==>
                && effects == [ToastError("No seats available for this movie")]
                && booking == None && step == Seats && store.rows == old(store.rows)
      ensures user.Some? && MaxSeats(movie) > 0 && createError.Some? ==>
                && effects == [ToastError(ShownMessage(createError.value))]
                && booking == None && step == Seats && store.rows == old(store.rows)
      ensures user.Some? && MaxSeats(movie) > 0 && createError.None? ==>
                && old(store.nextId) !in old(store.rows)
                && booking == Some(Booking(old(store.nextId), user.value.id, movie.id, seats,
                                           Total(seats, movie), Pending, bookedAt))
                && effects == [] && step == Paying
                && store.rows == old(store.rows)[old(store.nextId) := booking.value]
    {
      if user.None? {
        effects := [ToastError("Please sign in to book tickets"), RequestClose, NavigateTo("/auth")];
        return effects, None;
      }
      if MaxSeats(movie) <= 0 {
        effects := [ToastError("No seats available for this movie")];
        return effects, None;
      }
      var created := store.Create(user, movie.id, seats, Total(seats, movie), bookedAt, createError);
      if created.Err? {
        effects := [ToastError(ShownMessage(created.error))];
        step := Seats;
        return effects, None;
      }
      step := Paying;
      return [], Some(created.value);
    }

    /** `handleBook` after the payment delay, in the `Paying` step: mark the
        booking paid. A failed update leaves the booking as it was, shows the
        error and goes back to `Seats`; otherwise the booking's status
        becomes `Paid`, the step `Confirmed`, and the confirmation names the
        user's email, the tickets, title and total. */
    method FinishPayment(user: User, booking: Booking, store: Store, updateError: Option<Failure>)
      returns (effects: seq<Effect>)
      requires Valid() && step == Paying && store.Valid() && booking.id in store.rows
      modifies this`step, store
      ensures Valid() && store.Valid() && seats == old(seats)
      ensures updateError.Some? ==>
                && effects == [ToastError(ShownMessage(updateError.value))]
                && step == Seats && store.rows == old(store.rows)
      ensures updateError.None? ==>
                && effects == [ToastConfirmation(user.email, seats, movie.title, Total(seats, movie))]
                && step == Confirmed
                && store.rows == old(store.rows)[booking.id := old(store.rows)[booking.id].(status := Paid)]
    {
      var updated := store.UpdateStatus(booking.id, Paid, updateError);
      if updated.Err? {
        effects := [ToastError(ShownMessage(updated.error))];
        step := Seats;
        return;
      }
      step := Confirmed;
      effects := [ToastConfirmation(user.email, seats, movie.title, Total(seats, movie))];
    }

    /** `handleBook` as a whole: `BeginBook`, and when it reaches `Paying`,
        `FinishPayment` on the booking just created. `updateError` is the
        outcome of the status update. A failed update leaves the pending
        booking in the table; no cancel is issued. The ticket count never
        changes. */
    method Book(user: Option<User>, store: Store, bookedAt: int,
                createError: Option<Failure>, updateError: Option<Failure>)
      returns (effects: seq<Effect>)
      requires Valid() && step == Seats && store.Valid()
      modifies this`step, store
      ensures Valid() && store.Valid() && seats == old(seats)
      ensures user.None? ==>
                && effects == [ToastError("Please sign in to book tickets"), RequestClose, NavigateTo("/auth")]
                && step == Seats && store.rows == old(store.rows)
      ensures user.Some? && MaxSeats(movie) <= 0 ==>
                && effects == [ToastError("No seats available for this movie")]
                && step == Seats && store.rows == old(store.rows)
      ensures user.Some? && MaxSeats(movie) > 0 && createError.Some? ==>
                && effects == [ToastError(ShownMessage(createError.value))]
                && step == Seats && store.rows == old(store.rows)
      ensures user.Some? && MaxSeats(movie) > 0 && createError.None? ==>
                var pending := Booking(old(store.nextId), user.value.id, movie.id, seats,
                                       Total(seats, movie), Pending, bookedAt);
                && old(store.nextId) !in old(store.rows)
                && (updateError.Some? ==>
                      && effects == [ToastError(ShownMessage(updateError.value))]
                      && step == Seats
                      && store.rows == old(store.rows)[pending.id := pending])
                && (updateError.None? ==>
                      && effects == [ToastConfirmation(user.value.email, seats, movie.title, Total(seats, movie))]
                      && step == Confirmed
                      && store.rows == old(store.rows)[pending.id := pending.(status := Paid)])
    {
      var booking;
      effects, booking := BeginBook(user, store, bookedAt, createError);
      if booking.Some? {
        effects := FinishPayment(user.value, booking.value, store, updateError);
      }
    }
  }
}
