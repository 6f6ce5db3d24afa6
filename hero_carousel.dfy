/** The hero carousel over the featured movies: a current index moved by
    the arrows and set by the dots. */
module HeroCarousel {
  import opened Movies

  /** JavaScript's `%`: the remainder takes the sign of the dividend. */
  function JsRemainder(a: int, n: int): (r: int)
    requires n > 0
    ensures a >= 0 ==> 0 <= r < n
    ensures a < 0 ==> -n < r <= 0
  {
    if a >= 0 then a % n else -((-a) % n)
  }

  /** `(c + 1) % movies.length` */
  function NextIndex(c: int, n: int): (r: int)
    requires n > 0 && 0 <= c < n
    ensures 0 <= r < n
    ensures r == if c == n - 1 then 0 else c + 1
  {
    JsRemainder(c + 1, n)
  }

  /** `(c - 1 + movies.length) % movies.length` */
  function PrevIndex(c: int, n: int): (r: int)
    requires n > 0 && 0 <= c < n
    ensures 0 <= r < n
    ensures r == if c == 0 then n - 1 else c - 1
  {
    JsRemainder(c - 1 + n, n)
  }

  lemma PrevUndoesNext(c: int, n: int)
    requires n > 0 && 0 <= c < n
    ensures PrevIndex(NextIndex(c, n), n) == c && NextIndex(PrevIndex(c, n), n) == c
  {
  }

  /** k presses of "next" from index c. */
  function NextTimes(c: int, n: int, k: nat): (r: int)
    requires n > 0 && 0 <= c < n
    ensures 0 <= r < n
  {
    if k == 0 then c else NextIndex(NextTimes(c, n, k - 1), n)
  }

  /** Up to n presses of "next" advance the index by k, wrapping around
      past the last movie. */
  lemma {:induction false} NextTimesAdvances(c: int, n: int, k: nat)
    requires n > 0 && 0 <= c < n && k <= n
    ensures NextTimes(c, n, k) == if c + k < n then c + k else c + k - n
  {
    if k > 0 {
      NextTimesAdvances(c, n, k - 1);
    }
  }

  /** As many presses of "next" as there are movies come back to the start. */
  lemma FullCycle(c: int, n: int)
    requires n > 0 && 0 <= c < n
    ensures NextTimes(c, n, n) == c
  {
    NextTimesAdvances(c, n, n);
  }

  /** The mounted carousel. It renders only for a non-empty list. */
  class Carousel {
    const movies: seq<Movie>
    var current: int

    ghost predicate Valid()
      reads this
    {
      |movies| > 0 && 0 <= current < |movies|
    }

    constructor (movies: seq<Movie>)
      requires |movies| > 0
      ensures Valid() && this.movies == movies && current == 0
    {
      this.movies := movies;
      current := 0;
    }

    /** The movie on show. */
    function Shown(): Movie
      requires Valid()
      reads this
    {
      movies[current]
    }

    method Next()
      requires Valid()
      modifies this
      ensures Valid() && current == NextIndex(old(current), |movies|)
    {
      current := JsRemainder(current + 1, |movies|);
    }

    method Prev()
      requires Valid()
      modifies this
      ensures Valid() && current == PrevIndex(old(current), |movies|)
    {
      current := JsRemainder(current - 1 + |movies|, |movies|);
    }

    /** A click on dot i. */
    method JumpTo(i: int)
      requires Valid() && 0 <= i < |movies|
      modifies this
      ensures Valid() && current == i
    {
      current := i;
    }
  }
}
