/** Showtimes of one movie: the reshaping of the joined rows (`theaters`
    renamed to `theater`) and `groupByTheater`, an order-preserving
    group-by on the theater id. */
module Showtimes {
  import opened Common

  datatype Theater = Theater(id: string, name: string, location: Option<string>)

  /** A row as the query returns it, the theater joined under `theaters`. */
  datatype ShowtimeRow = ShowtimeRow(id: string, showTime: string, showDate: string,
                                     availableSeats: int, price: int, theaters: Theater)

  /** `ShowtimeWithTheater`. */
  datatype Showtime = Showtime(id: string, showTime: string, showDate: string,
                               availableSeats: int, price: int, theater: Theater)

  datatype Group = Group(theater: Theater, shows: seq<Showtime>)

  function Reshape(row: ShowtimeRow): Showtime {
    Showtime(row.id, row.showTime, row.showDate, row.availableSeats, row.price, row.theaters)
  }

  /** The inverse renaming, back to the query's row shape. */
  function Unshape(s: Showtime): ShowtimeRow {
    ShowtimeRow(s.id, s.showTime, s.showDate, s.availableSeats, s.price, s.theater)
  }

  /** The `.map` in `useShowtimes`: same length and order, every field
      copied, `theaters` renamed to `theater`. */
  function ReshapeAll(rows: seq<ShowtimeRow>): (r: seq<Showtime>)
    ensures |r| == |rows|
    ensures forall i :: 0 <= i < |r| ==>
              && r[i].id == rows[i].id && r[i].showTime == rows[i].showTime
              && r[i].showDate == rows[i].showDate
              && r[i].availableSeats == rows[i].availableSeats
              && r[i].price == rows[i].price && r[i].theater == rows[i].theaters
  {
    seq(|rows|, i requires 0 <= i < |rows| => Reshape(rows[i]))
  }

  /** Reshaping loses nothing: undoing the renaming gives the rows back. */
  lemma ReshapeRoundTrip(rows: seq<ShowtimeRow>)
    ensures seq(|rows|, i requires 0 <= i < |rows| => Unshape(ReshapeAll(rows)[i])) == rows
  {
  }

  // ---------------------------------------------------------------------
  // The reference definition of the grouping

  /** The position of the first show at theater `id`, or |s| when there is
      none. */
  function FirstIndex(s: seq<Showtime>, id: string): (k: nat)
    ensures k <= |s|
    ensures k < |s| ==> s[k].theater.id == id
    ensures forall j :: 0 <= j < k && j < |s| ==> s[j].theater.id != id
  {
    if s == [] then 0
    else
      var init := s[..|s| - 1];
      var k := FirstIndex(init, id);
      assert forall j :: 0 <= j < |init| ==> init[j] == s[j];
      if k < |init| then k else if s[|s| - 1].theater.id == id then |init| else |s|
  }

  /** Whether some show is at theater `id`. */
  predicate HasTheater(s: seq<Showtime>, id: string) {
    FirstIndex(s, id) < |s|
  }

  /** The distinct theater ids, in order of first occurrence. */
  function TheaterOrder(s: seq<Showtime>): (r: seq<string>)
    ensures forall i, j :: 0 <= i < j < |r| ==> r[i] != r[j]
    ensures forall id :: id in r <==> HasTheater(s, id)
  {
    if s == [] then []
    else
      var init := s[..|s| - 1];
      var t := TheaterOrder(init);
      var id := s[|s| - 1].theater.id;
      if id in t then t else t + [id]
  }

  /** The shows at one theater, in input order. */
  function ShowsAt(s: seq<Showtime>, id: string): (r: seq<Showtime>)
    ensures forall x :: x in r <==> x in s && x.theater.id == id
    ensures !HasTheater(s, id) ==> r == []
  {
    if s == [] then []
    else
      var last := s[|s| - 1];
      assert s == s[..|s| - 1] + [last];
      ShowsAt(s[..|s| - 1], id) + (if last.theater.id == id then [last] else [])
  }

  /** A theater's shows hold each show at it as often as the input does,
      and no other show. */
  lemma {:induction false} ShowsAtCounts(s: seq<Showtime>, id: string)
    ensures forall x :: multiset(ShowsAt(s, id))[x] == if x.theater.id == id then multiset(s)[x] else 0
  {
    if s != [] {
      var init := s[..|s| - 1];
      var last := s[|s| - 1];
      ShowsAtCounts(init, id);
      assert s == init + [last];
      assert multiset(s) == multiset(init) + multiset{last};
    }
  }

  /** The group of one theater id: the theater object of its first show
      and all its shows. */
  function GroupOf(s: seq<Showtime>, id: string): Group
    requires HasTheater(s, id)
  {
    Group(s[FirstIndex(s, id)].theater, ShowsAt(s, id))
  }

  /** The groups of the given theater ids, in the ids' order. */
  function GroupsFor(s: seq<Showtime>, ids: seq<string>): (r: seq<Group>)
    requires forall id :: id in ids ==> HasTheater(s, id)
    ensures |r| == |ids|
    ensures forall i :: 0 <= i < |ids| ==> r[i] == GroupOf(s, ids[i])
  {
    if ids == [] then []
    else GroupsFor(s, ids[..|ids| - 1]) + [GroupOf(s, ids[|ids| - 1])]
  }

  /** The groups of a list of shows, one per distinct theater id, in order
      of first occurrence. */
  function Groups(s: seq<Showtime>): (r: seq<Group>)
    ensures |r| == |TheaterOrder(s)|
  {
    GroupsFor(s, TheaterOrder(s))
  }

  // ---------------------------------------------------------------------
  // `groupByTheater`

  /** The state of the loop over the Map after the shows `s`: `keys` holds
      the ids met so far in insertion order, `groups` each one's group. */
  ghost predicate Tracks(keys: seq<string>, groups: map<string, Group>, s: seq<Showtime>) {
    && keys == TheaterOrder(s)
    && (forall id :: id in groups <==> id in keys)
    && (forall id :: id in keys ==> groups[id] == GroupOf(s, id))
  }

  /** The loop of `groupByTheater` over the Map: push onto the group of a
      known theater id, or start a new group with the show's theater. */
  method CollectGroups(showtimes: seq<Showtime>) returns (keys: seq<string>, groups: map<string, Group>)
    ensures Tracks(keys, groups, showtimes)
  {
    keys, groups := [], map[];
    var i := 0;
    while i < |showtimes|
      invariant 0 <= i <= |showtimes|
      invariant Tracks(keys, groups, showtimes[..i])
    {
      var st := showtimes[i];
      ghost var prefix := showtimes[..i];
      assert prefix + [st] == showtimes[..i + 1];
      var id := st.theater.id;
      if id in groups {
        var existing := groups[id];
        ghost var groups0 := groups;
        groups := groups[id := existing.(shows := existing.shows + [st])];
        KnownTheaterStep(keys, groups0, prefix, st, groups, showtimes[..i + 1]);
      } else {
        ghost var keys0, groups0 := keys, groups;
        groups := groups[id := Group(st.theater, [st])];
        keys := keys + [id];
        NewTheaterStep(keys0, groups0, prefix, st, keys, groups, showtimes[..i + 1]);
      }
      i := i + 1;
    }
    assert showtimes[..i] == showtimes;
  }

  /** `groupByTheater`: collect the groups, then `Array.from(map.values())`,
      which lists them in key insertion order. */
  method GroupByTheater(showtimes: seq<Showtime>) returns (result: seq<Group>)
    ensures result == Groups(showtimes)
  {
    var keys, groups := CollectGroups(showtimes);
    result := [];
    var j := 0;
    while j < |keys|
      invariant 0 <= j <= |keys|
      invariant result == GroupsFor(showtimes, keys[..j])
    {
      assert keys[..j + 1][..j] == keys[..j];
      result := result + [groups[keys[j]]];
      j := j + 1;
    }
    assert keys[..j] == keys;
  }

  /** A show at a theater already met extends that theater's group. */
  lemma KnownTheaterStep(keys: seq<string>, groups: map<string, Group>, prefix: seq<Showtime>,
                         st: Showtime, groups': map<string, Group>, next: seq<Showtime>)
    requires Tracks(keys, groups, prefix) && st.theater.id in groups && next == prefix + [st]
    requires groups' == groups[st.theater.id := groups[st.theater.id].(shows := groups[st.theater.id].shows + [st])]
    ensures Tracks(keys, groups', next)
  {
    assert next[..|next| - 1] == prefix;
    assert TheaterOrder(next) == keys;
    KnownTheaterGroups(keys, groups, prefix, st, groups');
  }

  lemma KnownTheaterGroups(keys: seq<string>, groups: map<string, Group>, prefix: seq<Showtime>,
                           st: Showtime, groups': map<string, Group>)
    requires Tracks(keys, groups, prefix) && st.theater.id in groups
    requires groups' == groups[st.theater.id := groups[st.theater.id].(shows := groups[st.theater.id].shows + [st])]
    ensures forall k :: k in keys ==> HasTheater(prefix + [st], k) && groups'[k] == GroupOf(prefix + [st], k)
  {
    forall k | k in keys ensures HasTheater(prefix + [st], k) && groups'[k] == GroupOf(prefix + [st], k) {
      KnownTheaterKey(groups, prefix, st, groups', k);
    }
  }

  /** One key of the map after a push onto a known theater's group. */
  lemma KnownTheaterKey(groups: map<string, Group>, prefix: seq<Showtime>, st: Showtime,
                        groups': map<string, Group>, k: string)
    requires HasTheater(prefix, k) && k in groups && groups[k] == GroupOf(prefix, k)
    requires st.theater.id in groups
    requires groups' == groups[st.theater.id := groups[st.theater.id].(shows := groups[st.theater.id].shows + [st])]
    ensures HasTheater(prefix + [st], k) && groups'[k] == GroupOf(prefix + [st], k)
  {
    GroupStep(prefix, st, k);
  }

  /** A show at a new theater appends its id and starts its group. */
  lemma NewTheaterStep(keys: seq<string>, groups: map<string, Group>, prefix: seq<Showtime>,
                       st: Showtime, keys': seq<string>, groups': map<string, Group>, next: seq<Showtime>)
    requires Tracks(keys, groups, prefix) && st.theater.id !in groups && next == prefix + [st]
    requires keys' == keys + [st.theater.id] && groups' == groups[st.theater.id := Group(st.theater, [st])]
    ensures Tracks(keys', groups', next)
  {
    var e := next;
    assert e[..|e| - 1] == prefix;
    assert TheaterOrder(e) == keys';
    forall k | k in keys' ensures groups'[k] == GroupOf(e, k) {
      GroupStep(prefix, st, k);
    }
  }

  /** One more show changes only the group of its own theater: a new id
      starts a group with that show's theater, a known id gets the show
      appended. */
  lemma GroupStep(prefix: seq<Showtime>, st: Showtime, id: string)
    requires HasTheater(prefix, id) || st.theater.id == id
    ensures HasTheater(prefix + [st], id)
    ensures HasTheater(prefix, id) ==>
              GroupOf(prefix + [st], id) ==
                var g := GroupOf(prefix, id);
                if st.theater.id == id then g.(shows := g.shows + [st]) else g
    ensures !HasTheater(prefix, id) ==>
              st.theater.id == id && GroupOf(prefix + [st], id) == Group(st.theater, [st])
  {
    var e := prefix + [st];
    assert e[..|e| - 1] == prefix;
    if HasTheater(prefix, id) {
      assert e[FirstIndex(prefix, id)] == prefix[FirstIndex(prefix, id)];
    }
  }

  // ---------------------------------------------------------------------
  // What the grouping promises

  /** Each group carries the theater object of the first show at its id. */
  lemma GroupTheaters(s: seq<Showtime>)
    ensures forall i :: 0 <= i < |Groups(s)| ==>
              && HasTheater(s, Groups(s)[i].theater.id)
              && Groups(s)[i].theater.id == TheaterOrder(s)[i]
              && Groups(s)[i].theater == s[FirstIndex(s, TheaterOrder(s)[i])].theater
  {
    var order := TheaterOrder(s);
    forall i | 0 <= i < |Groups(s)|
      ensures HasTheater(s, order[i])
      ensures Groups(s)[i].theater == s[FirstIndex(s, order[i])].theater
      ensures Groups(s)[i].theater.id == order[i]
    {
      assert Groups(s)[i] == GroupOf(s, order[i]);
    }
  }

  /** One group per distinct theater id: no two groups share an id, and
      every show's theater has a group. Empty input gives no groups. */
  lemma OneGroupPerTheater(s: seq<Showtime>)
    ensures forall i, j :: 0 <= i < j < |Groups(s)| ==> Groups(s)[i].theater.id != Groups(s)[j].theater.id
    ensures forall k :: 0 <= k < |s| ==> exists i :: 0 <= i < |Groups(s)| && Groups(s)[i].theater.id == s[k].theater.id
    ensures s == [] ==> Groups(s) == []
  {
    GroupTheaters(s);
    var order := TheaterOrder(s);
    forall k | 0 <= k < |s|
      ensures exists i :: 0 <= i < |Groups(s)| && Groups(s)[i].theater.id == s[k].theater.id
    {
      var id := s[k].theater.id;
      assert FirstIndex(s, id) <= k;
      assert id in order;
      var i :| 0 <= i < |order| && order[i] == id;
      assert Groups(s)[i].theater.id == id;
    }
  }

  /** Groups appear in the order of their theater's first show. */
  lemma {:induction false} FirstOccurrenceOrder(s: seq<Showtime>)
    ensures forall i, j :: 0 <= i < j < |TheaterOrder(s)| ==>
              FirstIndex(s, TheaterOrder(s)[i]) < FirstIndex(s, TheaterOrder(s)[j])
  {
    if s != [] {
      var init := s[..|s| - 1];
      FirstOccurrenceOrder(init);
      var t := TheaterOrder(init);
      forall id | id in t ensures FirstIndex(s, id) == FirstIndex(init, id) {
      }
      var x := s[|s| - 1].theater.id;
      if x !in t {
        assert FirstIndex(init, x) == |init|;
        forall id | id in t ensures FirstIndex(init, id) < |init| {
        }
      }
    }
  }

  /** The shows of one theater keep their relative input order. */
  lemma {:induction false} ShowsAtIsSubsequence(s: seq<Showtime>, id: string)
    ensures IsSubsequence(ShowsAt(s, id), s)
  {
    if s == [] {
      EmptySubsequence(s);
    } else {
      var init := s[..|s| - 1];
      var last := s[|s| - 1];
      ShowsAtIsSubsequence(init, id);
      assert s == init + [last];
      if last.theater.id == id {
        SubsequenceKeep(ShowsAt(init, id), init, last);
      } else {
        assert ShowsAt(s, id) == ShowsAt(init, id);
        SubsequenceSkip(ShowsAt(init, id), init, last);
      }
    }
  }

  /** Within each group the shows are exactly the input's shows at that
      theater, in input order. */
  lemma GroupShows(s: seq<Showtime>)
    ensures forall i :: 0 <= i < |Groups(s)| ==>
              && IsSubsequence(Groups(s)[i].shows, s)
              && (forall x :: x in Groups(s)[i].shows <==> x in s && x.theater.id == Groups(s)[i].theater.id)
  {
    GroupTheaters(s);
    forall i | 0 <= i < |Groups(s)| ensures IsSubsequence(Groups(s)[i].shows, s) {
      ShowsAtIsSubsequence(s, TheaterOrder(s)[i]);
    }
  }

  /** Each group holds every show at its theater as often as the input
      does, and no other show. */
  lemma GroupShowCounts(s: seq<Showtime>)
    ensures forall i, x :: 0 <= i < |Groups(s)| ==>
              multiset(Groups(s)[i].shows)[x] ==
                if x.theater.id == Groups(s)[i].theater.id then multiset(s)[x] else 0
  {
    GroupTheaters(s);
    forall i | 0 <= i < |Groups(s)|
      ensures forall x :: multiset(Groups(s)[i].shows)[x] ==
                if x.theater.id == Groups(s)[i].theater.id then multiset(s)[x] else 0
    {
      ShowsAtCounts(s, TheaterOrder(s)[i]);
    }
  }

  /** The number of shows at the given ids. */
  function ShowCount(s: seq<Showtime>, ids: seq<string>): nat {
    if ids == [] then 0 else ShowCount(s, ids[..|ids| - 1]) + |ShowsAt(s, ids[|ids| - 1])|
  }

  /** The number of shows over all groups. */
  function TotalShows(gs: seq<Group>): nat {
    if gs == [] then 0 else TotalShows(gs[..|gs| - 1]) + |gs[|gs| - 1].shows|
  }

  lemma {:induction false} TotalShowsIsShowCount(s: seq<Showtime>, ids: seq<string>)
    requires forall id :: id in ids ==> HasTheater(s, id)
    ensures TotalShows(GroupsFor(s, ids)) == ShowCount(s, ids)
  {
    if ids != [] {
      var init := ids[..|ids| - 1];
      TotalShowsIsShowCount(s, init);
      var gs := GroupsFor(s, ids);
      assert gs[..|gs| - 1] == GroupsFor(s, init);
    }
  }

  /** The last show adds one to the count of the distinct ids that cover it. */
  lemma {:induction false} ShowCountLast(s: seq<Showtime>, ids: seq<string>)
    requires s != []
    requires forall i, j :: 0 <= i < j < |ids| ==> ids[i] != ids[j]
    ensures ShowCount(s, ids) == ShowCount(s[..|s| - 1], ids) + (if s[|s| - 1].theater.id in ids then 1 else 0)
  {
    if ids != [] {
      var init := ids[..|ids| - 1];
      ShowCountLast(s, init);
      assert s[|s| - 1].theater.id in ids <==> s[|s| - 1].theater.id in init || s[|s| - 1].theater.id == ids[|ids| - 1];
    }
  }

  lemma {:induction false} ShowCountCovers(s: seq<Showtime>, ids: seq<string>)
    requires forall i, j :: 0 <= i < j < |ids| ==> ids[i] != ids[j]
    requires forall k :: 0 <= k < |s| ==> s[k].theater.id in ids
    ensures ShowCount(s, ids) == |s|
  {
    if s == [] {
      ShowCountEmpty(ids);
    } else {
      var init := s[..|s| - 1];
      assert forall k :: 0 <= k < |init| ==> init[k] == s[k];
      ShowCountCovers(init, ids);
      ShowCountLast(s, ids);
    }
  }

  lemma {:induction false} ShowCountEmpty(ids: seq<string>)
    ensures ShowCount([], ids) == 0
  {
    if ids != [] {
      ShowCountEmpty(ids[..|ids| - 1]);
    }
  }

  /** Every input show lands in a group: the groups hold as many shows as
      the input. */
  lemma GroupsKeepEveryShow(s: seq<Showtime>)
    ensures TotalShows(Groups(s)) == |s|
  {
    var order := TheaterOrder(s);
    TotalShowsIsShowCount(s, order);
    forall k | 0 <= k < |s| ensures s[k].theater.id in order {
      assert FirstIndex(s, s[k].theater.id) <= k;
    }
    ShowCountCovers(s, order);
  }
}
