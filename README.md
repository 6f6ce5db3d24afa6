# BookMyShow booking client — a verified model

This project models the deterministic logic of the BookMyShow movie-booking
client in Dafny.

- **Seat map.** A fixed 8 × 10 grid of seats labelled `A1` to `H10`. The
  seats shown as taken come from a deterministic generator: a scatter pass,
  then a row-major fall-back pass. The user's selection is bounded by a
  quota, and the confirm step hands on the selected ids sorted.
- **Booking dialog.** A ticket stepper and the derived price and total.
  Submitting checks for a user and for available seats, creates a pending
  booking, goes to "paying", marks the booking paid and confirms. Any
  failure reverts to the seats step. Closing the dialog resets it.
- **Bookings table.** Its insert, status update and per-user listing,
  modelled on an in-memory map keyed by booking id.
- **Showtimes.** The reshaping of joined rows (`theaters` → `theater`) and
  `groupByTheater`, an order-preserving group-by on the theater id.
- **Availability job.** The `update-availability` function: two guarded bulk
  updates of the movies table, a report of the updated titles, and the
  500 response on error.
- **Home page.** The genre filter and the `bookingMovie` state that opens and
  closes the booking dialog.
- **Hero carousel.** The current index, moved by next and prev and set by
  the dots.

The modules follow the source files:

| module | file |
|---|---|
| `SeatMap` | `seat_map.dfy` |
| `BookingDialog` | `booking_dialog.dfy` |
| `Bookings` | `bookings.dfy` |
| `Showtimes` | `showtimes.dfy` |
| `UpdateAvailability` | `availability.dfy` |
| `IndexPage` | `index_page.dfy` |
| `HeroCarousel` | `hero_carousel.dfy` |

Three helper modules support them:

- `Common`: Option and Result, min and max, and subsequences as index
  embeddings.
- `StringOrder`: lexicographic order by code point, and set-to-sorted-list.
  On strings within the Basic Multilingual Plane, and so on seat ids, this
  order is the one `Array.prototype.sort` uses by default.
- `Movies`: the movies-table row.

Code that changes state step by step is modelled as classes and methods:

- the seat map's selection, and its nested generator loops;
- the dialog's `step` and `seats`;
- the bookings table;
- the `Map` that `groupByTheater` fills;
- the movies table the job updates;
- the page's state and the carousel index.

Each method's `ensures` give its result and its new state. Some do so
directly, in terms of the old state: the selection toggle, the table's
create and update, the dialog's close and its two booking halves, and the
page and carousel handlers. Others do so through a specification function:
the filled-seat generator (`FilledSeats`), the grouping (`Groups`), the
bulk updates (`SetHousefull`, `SetNowShowing`) and the stepper
(`Incremented`, `Decremented`). Pure expressions (price, filter, reshaping,
report) are functions with lemmas.

JavaScript semantics are stated outright where they matter:

- `??` is `Option.GetOr`.
- `%` takes the dividend's sign (`HeroCarousel.JsRemainder`).
- `Array.prototype.sort()` without a comparator compares strings by UTF-16
  code unit. The model compares code points. The two orders agree on
  strings within the Basic Multilingual Plane, which include all seat ids.
  Under both, `"A10"` sorts before `"A2"`.
- A `Map` iterates in key insertion order.
- `.single()` fails when no row matches.

The outside world is reduced to parameters:

- The outcome of every remote call is an `Option` failure parameter.
- The database's `booked_at` clock, the job's `today` and its report
  timestamp are parameters.
- Toasts, `onOpenChange(false)` and navigation are returned as `Effect`
  values. The booking handlers return a list of them, and `Dialog.Close`
  returns one.

## Model

| member | source | states |
|---|---|---|
| SeatMap.SeatIdIsValid | src/components/SeatMap.tsx:34 | every label `${ROW_LABELS[row]}${col + 1}` of a grid cell is a row letter A–H followed by a numeral 1–10 |
| SeatMap.SeatIdInjective | src/components/SeatMap.tsx:34 | different grid cells have different labels |
| SeatMap.ValidIdIsGridSeat | src/components/SeatMap.tsx:79-83 | every well-formed id (letter A–H, numeral 1–10) labels a cell of the grid |
| SeatMap.AllSeatsSize | src/components/SeatMap.tsx:5-7 | the grid has exactly 80 distinct seats, and they are exactly the well-formed ids |
| SeatMap.FillSize | src/components/SeatMap.tsx:35-38 | the walk that adds unseen seats until the target is reached only adds proposed seats, and ends with min(target, seats available to it) seats |
| SeatMap.FilledSeatsSpec | src/components/SeatMap.tsx:23-52 | the filled set holds exactly min(80, max(0, min(80, totalSeats) − availableSeats)) seats, and all of them are valid grid ids |
| SeatMap.FillConcat | src/components/SeatMap.tsx:42-52 | running the fall-back walk from the set the scatter walk left equals one walk over both proposal lists |
| SeatMap.ScatterPass | src/components/SeatMap.tsx:27-40 | the nested scatter loops compute the scatter walk's set and count its seats |
| SeatMap.FallbackPass | src/components/SeatMap.tsx:43-51 | the nested fall-back loops continue the walk in row-major order from the scatter set and count its seats |
| SeatMap.ComputeFilledSeats | src/components/SeatMap.tsx:21-54 | the `filledSeats` memo is a function of `(totalSeats, availableSeats)` alone: it equals `FilledSeats` of the two counts |
| SeatMap.DoubleDigitColumnSortsFirst | src/components/SeatMap.tsx:140 | in the confirm step's plain string order, "A10" sorts before "A2" |
| SeatMap.Grid.constructor | src/components/SeatMap.tsx:17-24 | a new seat map starts with an empty selection and the generated filled set |
| SeatMap.Grid.Toggle | src/components/SeatMap.tsx:56-67 | a filled seat leaves the selection as it is; a selected seat is removed; an unselected seat is added exactly when the selection is below the quota; no other seat changes; the selection stays disjoint from the filled seats and within the quota |
| SeatMap.Grid.Confirm | src/components/SeatMap.tsx:137-141 | confirming is possible exactly when the selection has the quota's size, and then it yields the selected ids strictly ascending in string order, each once |
| StringOrder.LexIrreflexive | src/components/SeatMap.tsx:140 | the default string order is irreflexive |
| StringOrder.LexTransitive | src/components/SeatMap.tsx:140 | the default string order is transitive |
| StringOrder.LexTotal | src/components/SeatMap.tsx:140 | any two different strings are ordered one way or the other |
| StringOrder.Least | src/components/SeatMap.tsx:140 | finds the element of a non-empty set that is below every other element |
| StringOrder.SortedElements | src/components/SeatMap.tsx:140 | `Array.from(set).sort()` holds exactly the set's elements, strictly ascending, as many as the set has |
| StringOrder.AscendingIsDuplicateFree | src/components/SeatMap.tsx:140 | a strictly ascending list repeats no element |
| BookingDialog.UnitPrice | src/components/BookingDialog.tsx:29 | the ticket price is the movie's price, or 250 when it has none |
| BookingDialog.MaxSeats | src/components/BookingDialog.tsx:30 | the ceiling is the available seats (0 when unknown), never above 10 |
| BookingDialog.TotalStep | src/components/BookingDialog.tsx:31 | the total is tickets × unit price: one ticket costs the unit price, each more ticket adds one unit price |
| BookingDialog.Incremented | src/components/BookingDialog.tsx:128-129 | "+" adds one ticket below the ceiling and is a no-op (disabled) at or above it |
| BookingDialog.Decremented | src/components/BookingDialog.tsx:118-119 | "−" removes one ticket above one and is a no-op (disabled) at one |
| BookingDialog.StepperInverse | src/components/BookingDialog.tsx:118-129 | an enabled "+" is undone by "−", and an enabled "−" by "+" |
| BookingDialog.ShownMessage | src/components/BookingDialog.tsx:74-76 | a failure shows the `Error`'s own message, else "Booking failed" |
| BookingDialog.Dialog.constructor | src/components/BookingDialog.tsx:20-21 | a dialog starts in the seats step with one ticket |
| BookingDialog.Dialog.Increment | src/components/BookingDialog.tsx:128-129 | the ticket count becomes `Incremented` of the old one, and at least one ticket always remains |
| BookingDialog.Dialog.Decrement | src/components/BookingDialog.tsx:118-119 | the ticket count becomes `Decremented` of the old one, never below one |
| BookingDialog.Dialog.Close | src/components/BookingDialog.tsx:33-37 | closing from any step resets to the seats step with one ticket and asks the parent to close |
| BookingDialog.Dialog.BeginBook | src/components/BookingDialog.tsx:39-61 | without a user nothing is created, the step is unchanged, and the dialog closes and goes to "/auth"; with no seats nothing is created; a failed create changes nothing and the step is seats; otherwise exactly one pending booking with the current tickets and total is created under a fresh id and the step is `Paying` |
| BookingDialog.Dialog.FinishPayment | src/components/BookingDialog.tsx:64-78 | from `Paying`: a failed update leaves the booking as it was and returns to seats; otherwise only that booking's status becomes paid, the step is `Confirmed`, and the confirmation names the email, tickets, title and total |
| BookingDialog.Dialog.Book | src/components/BookingDialog.tsx:39-79 | the whole handler: the outcomes of `BeginBook`, and after `Paying` those of `FinishPayment` on the booking just created, so a failed update leaves it pending; the ticket count never changes |
| Bookings.Store.constructor | src/hooks/useBookings.ts:8-68 | the table starts empty |
| Bookings.Store.Create | src/hooks/useBookings.ts:31-41 | without a user it fails with "Must be logged in" and inserts nothing; a failed insert changes nothing; otherwise it adds exactly one row under a fresh id with the caller's user, movie, seats, total and status `pending`, and returns it |
| Bookings.Store.UpdateStatus | src/hooks/useBookings.ts:52-62 | only "paid" or "cancelled" is accepted; a failed statement changes nothing; a missing id fails and changes nothing; otherwise only the status of that one row changes, and the updated row is returned |
| Bookings.OwnedBy | src/hooks/useBookings.ts:18 | the filter keeps exactly the user's rows, each as often as before, and no other row |
| Bookings.InsertByDate | src/hooks/useBookings.ts:19 | inserting adds exactly the one booking to the list's multiset |
| Bookings.InsertKeepsOrder | src/hooks/useBookings.ts:19 | inserting into a newest-first list keeps it newest first |
| Bookings.SortNewestFirst | src/hooks/useBookings.ts:19 | the ordered list is a permutation of its input, sorted by `booked_at`, newest first |
| Bookings.ListBookings | src/hooks/useBookings.ts:13-21 | no user gives the empty list; a failed query gives its error and no data; otherwise a newest-first list |
| Bookings.RowsBelowCounts | src/hooks/useBookings.ts:15-16 | reading the table yields each stored row exactly once and nothing else |
| Bookings.ListIsUsersBookings | src/hooks/useBookings.ts:15-21 | a user's list holds each of that user's stored bookings exactly once, no other row, newest first |
| Bookings.CreatedBookingIsListed | src/hooks/useBookings.ts:8-47 | a booking created for a user appears in that user's list |
| Showtimes.ReshapeAll | src/hooks/useShowtimes.ts:37-44 | the mapping keeps length and order and copies every field, with `theaters` renamed to `theater` |
| Showtimes.ReshapeRoundTrip | src/hooks/useShowtimes.ts:37-44 | undoing the renaming gives the query's rows back, so the mapping loses nothing |
| Showtimes.FirstIndex | src/hooks/useShowtimes.ts:53-57 | the position of the first show at a theater, or the length when none |
| Showtimes.TheaterOrder | src/hooks/useShowtimes.ts:51-60 | the Map's keys are distinct and are exactly the theater ids that occur |
| Showtimes.ShowsAt | src/hooks/useShowtimes.ts:55 | a theater's shows are exactly the input shows at it, none when it has none |
| Showtimes.GroupsFor | src/hooks/useShowtimes.ts:60 | one group per given id, in the ids' order |
| Showtimes.CollectGroups | src/hooks/useShowtimes.ts:51-59 | after the loop the Map's insertion-ordered keys are the theater ids in first-occurrence order, and each key's group is that theater's group |
| Showtimes.GroupByTheater | src/hooks/useShowtimes.ts:50-61 | `groupByTheater` returns exactly the reference grouping `Groups` |
| Showtimes.GroupTheaters | src/hooks/useShowtimes.ts:52-60 | the i-th group belongs to the i-th distinct theater id, and its theater object is that of the first show with that id |
| Showtimes.OneGroupPerTheater | src/hooks/useShowtimes.ts:51-60 | groups have distinct theater ids, every show's theater has a group, and empty input gives no groups |
| Showtimes.FirstOccurrenceOrder | src/hooks/useShowtimes.ts:52-60 | groups appear in the order of their theater's first show |
| Showtimes.ShowsAtIsSubsequence | src/hooks/useShowtimes.ts:55 | a theater's shows keep their relative input order |
| Showtimes.ShowsAtCounts | src/hooks/useShowtimes.ts:55 | a theater's shows hold each input show at it as often as the input does, and no other show |
| Showtimes.GroupShowCounts | src/hooks/useShowtimes.ts:52-58 | each group holds every input show at its theater as often as the input does, and no other show |
| Showtimes.GroupShows | src/hooks/useShowtimes.ts:52-58 | each group holds exactly the input shows at its theater, in input order |
| Showtimes.GroupsKeepEveryShow | src/hooks/useShowtimes.ts:52-58 | the groups hold as many shows as the input, so every show lands in a group |
| UpdateAvailability.SetHousefull | supabase/functions/update-availability/index.ts:21-27 | rule 1's update changes each row by its filter and keeps the row count |
| UpdateAvailability.SetNowShowing | supabase/functions/update-availability/index.ts:31-36 | rule 2's update changes each row by its filter and keeps the row count |
| UpdateAvailability.HousefullTouched | supabase/functions/update-availability/index.ts:21-27 | rule 1's returned rows are exactly the id and title of the rows its filter matches, one entry per matching row |
| UpdateAvailability.NowShowingTouched | supabase/functions/update-availability/index.ts:31-36 | rule 2's returned rows are exactly the id and title of the rows its filter matches, one entry per matching row |
| UpdateAvailability.Titles | supabase/functions/update-availability/index.ts:43-44 | the report lists the returned rows' titles, in order |
| UpdateAvailability.MoviesTable.UpdateHousefull | supabase/functions/update-availability/index.ts:21-27 | rule 1 sets `housefull` on every row with 0 seats that is neither housefull nor ended; only `availability` changes; a failed statement changes nothing |
| UpdateAvailability.MoviesTable.UpdateNowShowing | supabase/functions/update-availability/index.ts:30-36 | rule 2 moves every `coming_soon` row released on or before `today` to `now_showing`; only `availability` changes; a failed statement changes nothing |
| UpdateAvailability.Run | supabase/functions/update-availability/index.ts:20-57 | both statements run in sequence, whatever the first did, with no rollback; the first error gives a 500 with that error; otherwise a 200 whose report lists the titles each rule updated |
| UpdateAvailability.ReconcileRows | supabase/functions/update-availability/index.ts:21-36 | one run changes only `availability`: ended stays ended, 0 seats becomes housefull (rule 1 wins over rule 2), a released `coming_soon` becomes `now_showing`, anything else stays |
| UpdateAvailability.EndedIsFinal | supabase/functions/update-availability/index.ts:23-34 | ended movies never change |
| UpdateAvailability.ReconcileIdempotent | supabase/functions/update-availability/index.ts:21-36 | a second run with the same `today` changes nothing and reports no title |
| UpdateAvailability.NoneTouched | supabase/functions/update-availability/index.ts:21-36 | when no row matches either filter, neither rule reports a row |
| UpdateAvailability.ReportIsChangedRows | supabase/functions/update-availability/index.ts:21-45 | each rule reports every row it changed, and only rows it changed |
| IndexPage.WithGenre | src/pages/Index.tsx:22 | the filter keeps exactly the movies whose genres include the selected one, each as often as the input holds it |
| IndexPage.FilteredMovies | src/pages/Index.tsx:18-24 | "All" returns the list unchanged; any other genre keeps exactly the movies that list it, each as often as the input holds it |
| IndexPage.WithGenreIsSubsequence | src/pages/Index.tsx:22 | the genre filter keeps the movies in their original order |
| IndexPage.FilteredIsSubsequence | src/pages/Index.tsx:18-24 | the shown list is a subsequence of the movie list |
| IndexPage.WithGenreIdempotent | src/pages/Index.tsx:22 | filtering twice by the same genre is filtering once |
| IndexPage.Page.constructor | src/pages/Index.tsx:12-13 | the page starts on "All", showing every movie, with no dialog open |
| IndexPage.Page.SelectGenre | src/pages/Index.tsx:40 | choosing a genre shows that genre's filtered list |
| IndexPage.Page.BookNow | src/pages/Index.tsx:54 | "Book Now" sets `bookingMovie` to that movie and the dialog is open |
| IndexPage.Page.OnOpenChange | src/pages/Index.tsx:69-71 | the dialog is open exactly when `bookingMovie` is set; a close clears it, an open keeps it |
| HeroCarousel.JsRemainder | src/components/HeroCarousel.tsx:14-20 | JavaScript's `%` is non-negative and below n for a non-negative dividend |
| HeroCarousel.NextIndex | src/components/HeroCarousel.tsx:15 | next goes to c + 1, wrapping from the last index to 0, and stays in range |
| HeroCarousel.PrevIndex | src/components/HeroCarousel.tsx:19 | prev goes to c − 1, wrapping from 0 to the last index, and stays in range |
| HeroCarousel.PrevUndoesNext | src/components/HeroCarousel.tsx:14-20 | prev after next, and next after prev, are the identity on [0, n) |
| HeroCarousel.NextTimesAdvances | src/components/HeroCarousel.tsx:15 | k ≤ n presses of next advance the index by k, wrapping once past the end |
| HeroCarousel.FullCycle | src/components/HeroCarousel.tsx:15 | n presses of next come back to the start |
| HeroCarousel.Carousel.constructor | src/components/HeroCarousel.tsx:12-27 | the carousel renders only for a non-empty list, and it starts at index 0 |
| HeroCarousel.Carousel.Next | src/components/HeroCarousel.tsx:14-16 | the index becomes `NextIndex` of the old one and stays in range |
| HeroCarousel.Carousel.Prev | src/components/HeroCarousel.tsx:18-20 | the index becomes `PrevIndex` of the old one and stays in range |
| HeroCarousel.Carousel.JumpTo | src/components/HeroCarousel.tsx:79 | a dot click sets the index to that dot's |

## Left out

- JSX rendering and styling: the grid's buttons, legends, labels, icons and
  CSS classes. The disabled state of a button is modelled as a guard in its
  handler.
- Presentational files are not part of this model: `Navbar`, `Footer`,
  `MovieCard`, `GenreFilter`, the auth form, and the `MyBookings` page
  (whose only logic is a status-to-colour lookup).
- `useMovies`, `useFeaturedMovies` and the fetch in `useShowtimes` are thin
  query wrappers; the model starts from the rows they return.
- Supabase clients, environment lookups, CORS and OPTIONS handling, and
  `console` logging. These are I/O.
- React Query caching and the cache invalidation after a create or update.
  This is framework behaviour, not booking logic.
- Time: the 2-second payment delay and the carousel's 5-second auto-advance
  timer. The `booked_at` clock, the job's `today` and the report timestamp
  are parameters. Dates are day numbers, which order like ISO
  `YYYY-MM-DD` strings.
- Toasts and navigation are modelled only as the returned `Effect` values.
- Concurrency: simultaneous bookings, races with the availability job, and
  interleavings during the dialog's `await`s (closing or pressing the
  stepper while a call is pending).
- Bookings.ListBookings: the `movies(*)` join is not modelled; the list
  holds only the booking rows.
- Booking ids are uuids generated by the database; the model numbers them
  with a counter so that a fresh id is provably unused.
- Row-level security is not modelled: every row is visible to the queries.
- Bookings.ListBookings: bookings with equal `booked_at` come out in one
  fixed order. The database leaves the order of ties open.
- UpdateAvailability.HousefullTouched: the rows a bulk update returns come
  out in table order. The database leaves this order open.
- UpdateAvailability.Run: the error body carries the statement's error
  value, not its `String(err)` text. A failure to create the client is not
  modelled.
- Movies.Movie: `release_date` is modelled as always present. `price` and
  `available_seats` may be missing.
- HeroCarousel.Carousel: the movie list is fixed for the life of the
  carousel. In the source it is the featured-movies query result, which is
  refetched (for instance after every booking, when the `movies` queries
  are invalidated), while `current` is never reset. If a refetch shortens
  the list below `current + 1`, the source reads a missing movie. The
  model does not capture that, and `Valid()` holds only because the list
  cannot change.
- BookingDialog.Dialog: the dialog is modelled for one movie. In the
  source, `step` and `seats` survive when the parent passes another movie
  without closing.
- The dialog's code has only the steps `seats`, `paying` and `confirmed`.
  It has no theater, seat-map or payment-method step and no showtime date
  filter, so the model has none either. The dialog never calls `SeatMap`
  or `groupByTheater`.
- HeroCarousel.NextTimesAdvances: stated for up to n presses rather than
  as `(c + k) mod n` for every k. `FullCycle` gives the wrap back to the
  start, so repeated cycles follow by repeated use.
- Ratings are floating point and play no part in the core.
- StringOrder.LexLess: compares code points, not UTF-16 code units. It
  differs from JavaScript's sort order only on strings with characters
  above U+FFFF. For example, JavaScript puts "\u{10000}" before "\uFFFF".
  Seat ids are ASCII, so `SeatMap.Grid.Confirm` is not affected.
- BookingDialog.Total: prices, totals and seat counts are whole numbers.
  JavaScript's `number` would also allow a fractional price, and then a
  fractional total.
