/** A row of the `movies` table, as far as the booking client reads it. */
module Movies {
  import opened Common

  datatype Availability = ComingSoon | NowShowing | Housefull | Ended

  /** `price` and `available_seats` are nullable columns; `release_date` is a
      calendar day, compared as a day number. */
  datatype Movie = Movie(
    id: string,
    title: string,
    genre: seq<string>,
    price: Option<int>,
    availableSeats: Option<int>,
    availability: Availability,
    releaseDate: int
  )
}
