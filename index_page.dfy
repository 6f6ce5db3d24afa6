/** The home page: the genre filter over the movie list, and the
    `bookingMovie` state that opens and closes the booking dialog. */
module IndexPage {
  import opened Common
  import opened Movies

  const AllGenres: string := "All"

  /** `movies.filter((m) => m.genre.includes(genre))`. */
  function WithGenre(movies: seq<Movie>, genre: string): (r: seq<Movie>)
    ensures |r| <= |movies|
    ensures forall m :: m in r <==> m in movies && genre in m.genre
    ensures forall m :: multiset(r)[m] == if genre in m.genre then multiset(movies)[m] else 0
  {
    if movies == [] then []
    else
      var last := movies[|movies| - 1];
      assert movies == movies[..|movies| - 1] + [last];
      WithGenre(movies[..|movies| - 1], genre) + (if genre in last.genre then [last] else [])
  }

  /** `filteredMovies`: "All" keeps the list as it is; any other genre keeps
      exactly the movies listing it. */
  function FilteredMovies(movies: seq<Movie>, selectedGenre: string): (r: seq<Movie>)
    ensures selectedGenre == AllGenres ==> r == movies
    ensures selectedGenre != AllGenres ==> forall m :: m in r <==> m in movies && selectedGenre in m.genre
    ensures selectedGenre != AllGenres ==>
              forall m :: multiset(r)[m] == if selectedGenre in m.genre then multiset(movies)[m] else 0
  {
    if selectedGenre == AllGenres then movies else WithGenre(movies, selectedGenre)
  }

  /** The filter keeps the input's order: its result is a subsequence. */
  lemma {:induction false} WithGenreIsSubsequence(movies: seq<Movie>, genre: string)
    ensures IsSubsequence(WithGenre(movies, genre), movies)
  {
    if movies == [] {
      EmptySubsequence(movies);
    } else {
      var init := movies[..|movies| - 1];
      var last := movies[|movies| - 1];
      WithGenreIsSubsequence(init, genre);
      assert movies == init + [last];
      if genre in last.genre {
        SubsequenceKeep(WithGenre(init, genre), init, last);
      } else {
        assert WithGenre(movies, genre) == WithGenre(init, genre);
        SubsequenceSkip(WithGenre(init, genre), init, last);
      }
    }
  }

  lemma FilteredIsSubsequence(movies: seq<Movie>, selectedGenre: string)
    ensures IsSubsequence(FilteredMovies(movies, selectedGenre), movies)
  {
    if selectedGenre == AllGenres {
      var idx: seq<nat> := seq(|movies|, i requires 0 <= i < |movies| => i);
      assert EmbeddedBy(idx, movies, movies);
    } else {
      WithGenreIsSubsequence(movies, selectedGenre);
    }
  }

  /** Filtering twice by the same genre changes nothing more. */
  lemma {:induction false} WithGenreIdempotent(movies: seq<Movie>, genre: string)
    ensures WithGenre(WithGenre(movies, genre), genre) == WithGenre(movies, genre)
  {
    if movies != [] {
      var init := movies[..|movies| - 1];
      var last := movies[|movies| - 1];
      WithGenreIdempotent(init, genre);
      var once := WithGenre(movies, genre);
      var before := WithGenre(init, genre);
      if genre in last.genre {
        assert once == before + [last];
        assert once[..|once| - 1] == before;
        assert WithGenre(once, genre) == WithGenre(before, genre) + [last];
      } else {
        assert once == before;
      }
    }
  }

  /** The page's own state. `movies` is the loaded movie list. */
  class Page {
    var movies: seq<Movie>
    var selectedGenre: string
    var bookingMovie: Option<Movie>

    constructor (movies: seq<Movie>)
      ensures this.movies == movies && selectedGenre == AllGenres && bookingMovie == None
      ensures Shown() == movies && !DialogOpen()
    {
      this.movies := movies;
      selectedGenre := AllGenres;
      bookingMovie := None;
    }

    function Shown(): seq<Movie>
      reads this
    {
      FilteredMovies(movies, selectedGenre)
    }

    /** `open={!!bookingMovie}`. */
    predicate DialogOpen()
      reads this
    {
      bookingMovie.Some?
    }

    /** A click on a genre chip: the grid then shows that genre's movies. */
    method SelectGenre(genre: string)
      modifies this`selectedGenre
      ensures selectedGenre == genre
      ensures Shown() == FilteredMovies(movies, genre)
    {
      selectedGenre := genre;
    }

    /** "Book Now" on a card or in the carousel: that movie is being booked
        and the dialog opens. */
    method BookNow(m: Movie)
      modifies this`bookingMovie
      ensures bookingMovie == Some(m) && DialogOpen()
    {
      bookingMovie := Some(m);
    }

    /** The dialog's `onOpenChange`: a close forgets the movie, an open
        keeps the state as it is. */
    method OnOpenChange(open: bool)
      modifies this`bookingMovie
      ensures !open ==> bookingMovie == None && !DialogOpen()
      ensures open ==> bookingMovie == old(bookingMovie)
    {
      if !open {
        bookingMovie := None;
      }
    }
  }
}
