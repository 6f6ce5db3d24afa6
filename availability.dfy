/** The `update-availability` job: two guarded bulk updates of the movies
    table, run one after the other, and a report of the titles each one
    updated. */
module UpdateAvailability {
  import opened Common
  import opened Movies

  /** An error reported by one UPDATE statement. */
  datatype StatementError = StatementError(message: string)

  /** A row returned by `.select("id, title")`. */
  datatype Touched = Touched(id: string, title: string)

  datatype Body =
    | Report(timestamp: string, housefull: seq<string>, nowShowing: seq<string>)
    | ErrorBody(error: StatementError)

  datatype Response = Response(status: int, body: Body)

  /** Rule 1's filter: no seats left, not already housefull, not ended. */
  predicate HousefullDue(m: Movie) {
    m.availableSeats == Some(0) && m.availability != Housefull && m.availability != Ended
  }

  /** Rule 2's filter: coming soon and released on or before `today`. */
  predicate NowShowingDue(m: Movie, today: int) {
    m.availability == ComingSoon && m.releaseDate <= today
  }

  function AfterHousefull(m: Movie): Movie {
    if HousefullDue(m) then m.(availability := Housefull) else m
  }

  function AfterNowShowing(m: Movie, today: int): Movie {
    if NowShowingDue(m, today) then m.(availability := NowShowing) else m
  }

  /** The table after rule 1's UPDATE. */
  function SetHousefull(rows: seq<Movie>): (r: seq<Movie>)
    ensures |r| == |rows|
    ensures forall i :: 0 <= i < |r| ==> r[i] == AfterHousefull(rows[i])
  {
    seq(|rows|, i requires 0 <= i < |rows| => AfterHousefull(rows[i]))
  }

  /** The table after rule 2's UPDATE. */
  function SetNowShowing(rows: seq<Movie>, today: int): (r: seq<Movie>)
    ensures |r| == |rows|
    ensures forall i :: 0 <= i < |r| ==> r[i] == AfterNowShowing(rows[i], today)
  {
    seq(|rows|, i requires 0 <= i < |rows| => AfterNowShowing(rows[i], today))
  }

  /** How many rows rule 1's filter matches. */
  function HousefullCount(rows: seq<Movie>): nat {
    if rows == [] then 0
    else HousefullCount(rows[..|rows| - 1]) + (if HousefullDue(rows[|rows| - 1]) then 1 else 0)
  }

  /** How many rows rule 2's filter matches. */
  function NowShowingCount(rows: seq<Movie>, today: int): nat {
    if rows == [] then 0
    else NowShowingCount(rows[..|rows| - 1], today) + (if NowShowingDue(rows[|rows| - 1], today) then 1 else 0)
  }

  /** The rows rule 1 updates, as its `.select("id, title")` returns them:
      one entry per matching row. */
  function HousefullTouched(rows: seq<Movie>): (r: seq<Touched>)
    ensures |r| == HousefullCount(rows)
    ensures forall m :: m in rows && HousefullDue(m) ==> Touched(m.id, m.title) in r
    ensures forall t :: t in r ==> exists m :: m in rows && HousefullDue(m) && t == Touched(m.id, m.title)
  {
    if rows == [] then []
    else
      var last := rows[|rows| - 1];
      assert rows == rows[..|rows| - 1] + [last];
      HousefullTouched(rows[..|rows| - 1]) + (if HousefullDue(last) then [Touched(last.id, last.title)] else [])
  }

  /** The rows rule 2 updates, as its `.select("id, title")` returns them:
      one entry per matching row. */
  function NowShowingTouched(rows: seq<Movie>, today: int): (r: seq<Touched>)
    ensures |r| == NowShowingCount(rows, today)
    ensures forall m :: m in rows && NowShowingDue(m, today) ==> Touched(m.id, m.title) in r
    ensures forall t :: t in r ==> exists m :: m in rows && NowShowingDue(m, today) && t == Touched(m.id, m.title)
  {
    if rows == [] then []
    else
      var last := rows[|rows| - 1];
      assert rows == rows[..|rows| - 1] + [last];
      NowShowingTouched(rows[..|rows| - 1], today) + (if NowShowingDue(last, today) then [Touched(last.id, last.title)] else [])
  }

  /** `?.map((m) => m.title)`. */
  function Titles(ts: seq<Touched>): (r: seq<string>)
    ensures |r| == |ts| && forall i :: 0 <= i < |r| ==> r[i] == ts[i].title
  {
    seq(|ts|, i requires 0 <= i < |ts| => ts[i].title)
  }

  /** The movies table, updated in place by the two statements. */
  class MoviesTable {
    var rows: seq<Movie>

    constructor (rows: seq<Movie>)
      ensures this.rows == rows
    {
      this.rows := rows;
    }

    /** Rule 1: set `housefull` on every row with no seats left that is not
        already housefull or ended. A failing statement changes nothing.
        Only `availability` changes. */
    method UpdateHousefull(dbError: Option<StatementError>) returns (r: Result<seq<Touched>, StatementError>)
      modifies this
      ensures dbError.Some? ==> r == Err(dbError.value) && rows == old(rows)
      ensures dbError.None? ==> r == Ok(HousefullTouched(old(rows))) && rows == SetHousefull(old(rows))
      ensures |rows| == |old(rows)|
      ensures forall i :: 0 <= i < |rows| ==> rows[i] == old(rows)[i].(availability := rows[i].availability)
    {
      if dbError.Some? {
        return Err(dbError.value);
      }
      r := Ok(HousefullTouched(rows));
      rows := SetHousefull(rows);
    }

    /** Rule 2: move every `coming_soon` row released by `today` to
        `now_showing`. A failing statement changes nothing. Only
        `availability` changes. */
    method UpdateNowShowing(today: int, dbError: Option<StatementError>) returns (r: Result<seq<Touched>, StatementError>)
      modifies this
      ensures dbError.Some? ==> r == Err(dbError.value) && rows == old(rows)
      ensures dbError.None? ==> r == Ok(NowShowingTouched(old(rows), today)) && rows == SetNowShowing(old(rows), today)
      ensures |rows| == |old(rows)|
      ensures forall i :: 0 <= i < |rows| ==> rows[i] == old(rows)[i].(availability := rows[i].availability)
    {
      if dbError.Some? {
        return Err(dbError.value);
      }
      r := Ok(NowShowingTouched(rows, today));
      rows := SetNowShowing(rows, today);
    }
  }

  /** The handler: both statements run, whatever the first one did; then the
      first error wins and gives a 500, otherwise a 200 with the report. No
      statement is rolled back. */
  method Run(table: MoviesTable, today: int, timestamp: string,
             housefullError: Option<StatementError>, nowShowingError: Option<StatementError>)
    returns (resp: Response)
    modifies table
    ensures var mid := if housefullError.Some? then old(table.rows) else SetHousefull(old(table.rows));
            table.rows == if nowShowingError.Some? then mid else SetNowShowing(mid, today)
    ensures housefullError.Some? ==> resp == Response(500, ErrorBody(housefullError.value))
    ensures housefullError.None? && nowShowingError.Some? ==> resp == Response(500, ErrorBody(nowShowingError.value))
    ensures housefullError.None? && nowShowingError.None? ==>
              resp == Response(200, Report(timestamp,
                                           Titles(HousefullTouched(old(table.rows))),
                                           Titles(NowShowingTouched(SetHousefull(old(table.rows)), today))))
  {
    var housefullUpdated := table.UpdateHousefull(housefullError);
    var nowShowingUpdated := table.UpdateNowShowing(today, nowShowingError);
    if housefullUpdated.Err? {
      return Response(500, ErrorBody(housefullUpdated.error));
    }
    if nowShowingUpdated.Err? {
      return Response(500, ErrorBody(nowShowingUpdated.error));
    }
    resp := Response(200, Report(timestamp, Titles(housefullUpdated.value), Titles(nowShowingUpdated.value)));
  }

  // ---------------------------------------------------------------------
  // What the two rules promise

  /** One successful run on the table. */
  function Reconcile(rows: seq<Movie>, today: int): seq<Movie> {
    SetNowShowing(SetHousefull(rows), today)
  }

  /** The availability a row ends with after one run. Rule 1 goes first, so
      a coming-soon movie without seats ends housefull, and an ended movie
      stays ended. */
  function Expected(m: Movie, today: int): Availability {
    if m.availability == Ended then Ended
    else if m.availableSeats == Some(0) then Housefull
    else if m.availability == ComingSoon && m.releaseDate <= today then NowShowing
    else m.availability
  }

  /** A run changes only `availability`, and sets it to the expected value. */
  lemma ReconcileRows(rows: seq<Movie>, today: int)
    ensures |Reconcile(rows, today)| == |rows|
    ensures forall i :: 0 <= i < |rows| ==>
              Reconcile(rows, today)[i] == rows[i].(availability := Expected(rows[i], today))
  {
  }

  /** Ended movies never change. */
  lemma EndedIsFinal(rows: seq<Movie>, today: int)
    ensures forall i :: 0 <= i < |rows| && rows[i].availability == Ended ==> Reconcile(rows, today)[i] == rows[i]
  {
    ReconcileRows(rows, today);
  }

  /** A second run with the same `today` changes nothing and reports
      nothing. */
  lemma ReconcileIdempotent(rows: seq<Movie>, today: int)
    ensures Reconcile(Reconcile(rows, today), today) == Reconcile(rows, today)
    ensures HousefullTouched(Reconcile(rows, today)) == []
    ensures NowShowingTouched(SetHousefull(Reconcile(rows, today)), today) == []
  {
    var once := Reconcile(rows, today);
    ReconcileRows(rows, today);
    assert forall i :: 0 <= i < |once| ==> !HousefullDue(once[i]);
    assert SetHousefull(once) == once;
    assert forall i :: 0 <= i < |once| ==> !NowShowingDue(once[i], today);
    NoneTouched(once, today);
  }

  lemma {:induction false} NoneTouched(rows: seq<Movie>, today: int)
    requires forall i :: 0 <= i < |rows| ==> !HousefullDue(rows[i]) && !NowShowingDue(rows[i], today)
    ensures HousefullTouched(rows) == [] && NowShowingTouched(rows, today) == []
  {
    if rows != [] {
      NoneTouched(rows[..|rows| - 1], today);
    }
  }

  /** The report of each rule lists exactly the rows that rule changed:
      every changed row is reported, and every reported row was changed. */
  lemma ReportIsChangedRows(rows: seq<Movie>, today: int)
    ensures forall i :: 0 <= i < |rows| && SetHousefull(rows)[i] != rows[i] ==>
              Touched(rows[i].id, rows[i].title) in HousefullTouched(rows)
    ensures forall t :: t in HousefullTouched(rows) ==>
              exists i :: 0 <= i < |rows| && SetHousefull(rows)[i] != rows[i] && t == Touched(rows[i].id, rows[i].title)
    ensures forall i :: 0 <= i < |rows| && SetNowShowing(rows, today)[i] != rows[i] ==>
              Touched(rows[i].id, rows[i].title) in NowShowingTouched(rows, today)
    ensures forall t :: t in NowShowingTouched(rows, today) ==>
              exists i :: 0 <= i < |rows| && SetNowShowing(rows, today)[i] != rows[i] && t == Touched(rows[i].id, rows[i].title)
  {
    forall t | t in HousefullTouched(rows)
      ensures exists i :: 0 <= i < |rows| && SetHousefull(rows)[i] != rows[i] && t == Touched(rows[i].id, rows[i].title)
    {
      var m :| m in rows && HousefullDue(m) && t == Touched(m.id, m.title);
      var i :| 0 <= i < |rows| && rows[i] == m;
      assert SetHousefull(rows)[i].availability != rows[i].availability;
    }
    forall t | t in NowShowingTouched(rows, today)
      ensures exists i :: 0 <= i < |rows| && SetNowShowing(rows, today)[i] != rows[i] && t == Touched(rows[i].id, rows[i].title)
    {
      var m :| m in rows && NowShowingDue(m, today) && t == Touched(m.id, m.title);
      var i :| 0 <= i < |rows| && rows[i] == m;
      assert SetNowShowing(rows, today)[i].availability != rows[i].availability;
    }
  }
}
