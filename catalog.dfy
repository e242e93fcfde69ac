/** The pure, derived views the catalog pages compute from the loaded rows:
    the load-time filter and sort, the genre list, the genre filter, the
    case-insensitive title lookups, the hero banner and the landing-page batches. */
module Catalog {
  import opened Wrappers
  import opened Text
  import opened Seqs
  import opened TitleRecord

  // ---------------------------------------------------------------------------
  // Loading

  /** Movies and Home pages: keep the rows with a non-blank title, sorted by title. */
  function LoadMovies(rows: seq<Row>): (movies: seq<Row>)
    ensures SortedBy(movies, TitleOf)
    ensures forall m :: multiset(movies)[m] == if HasTitle(m) then multiset(rows)[m] else 0
    ensures forall m :: m in movies <==> m in rows && HasTitle(m)
    ensures AllTitled(movies)
  {
    var kept := Filter(rows, HasTitle);
    forall m ensures multiset(kept)[m] == if HasTitle(m) then multiset(rows)[m] else 0 {
      FilterCount(rows, HasTitle, m);
    }
    var movies := SortBy(kept, TitleOf);
    assert forall m :: m in movies <==> m in multiset(kept);
    movies
  }

  /** TV page: keep the rows with a non-blank title whose type is "TV Show", sorted by title. */
  function LoadTvShows(rows: seq<Row>): (shows: seq<Row>)
    ensures SortedBy(shows, TitleOf)
    ensures forall m :: multiset(shows)[m] == if HasTitle(m) && IsTvShow(m) then multiset(rows)[m] else 0
    ensures forall m :: m in shows <==> m in rows && HasTitle(m) && IsTvShow(m)
    ensures AllTitled(shows)
  {
    var p := (r: Row) => HasTitle(r) && IsTvShow(r);
    var kept := Filter(rows, p);
    forall m ensures multiset(kept)[m] == if p(m) then multiset(rows)[m] else 0 {
      FilterCount(rows, p, m);
    }
    var shows := SortBy(kept, TitleOf);
    assert forall m :: m in shows <==> m in multiset(kept);
    shows
  }

  // ---------------------------------------------------------------------------
  // Genres

  /** `movies.reduce((acc, movie) => [...acc, ...activeGenres(movie)], [])`. */
  function FlaggedGenres(movies: seq<Row>, genres: seq<string>): (gs: seq<string>)
    ensures forall g :: g in gs <==> g in genres && exists m :: m in movies && Flagged(m, g)
  {
    if movies == [] then []
    else
      var init := movies[..|movies| - 1];
      var last := movies[|movies| - 1];
      assert movies == init + [last];
      FlaggedGenres(init, genres) + ActiveGenres(last, genres)
  }

  /** `allGenres`: every genre of the list that some movie flags, once each, in ascending order. */
  function AllGenres(movies: seq<Row>, genres: seq<string>): (gs: seq<string>)
    ensures forall g :: g in gs <==> g in genres && exists m :: m in movies && Flagged(m, g)
    ensures Distinct(gs)
    ensures forall i, j :: 0 <= i < j < |gs| ==> StrLeq(gs[i], gs[j]) && !StrLeq(gs[j], gs[i])
  {
    var flagged := FlaggedGenres(movies, genres);
    var unique := KeepFirst(flagged);
    var gs := SortBy(unique, (g: string) => g);
    assert forall g :: g in gs <==> g in flagged by {
      PermutationMembers(unique, gs);
    }
    assert Distinct(gs) by {
      DistinctPermutation(unique, gs);
    }
    SortedDistinctIncreasing(gs);
    gs
  }

  /** `filteredMovies` on the TV page: the movies flagging the selected genre, or all of them
      when no genre is selected. */
  function Filtered(movies: seq<Row>, genre: string): (r: seq<Row>)
    ensures genre == "" ==> r == movies
    ensures genre != "" ==> forall m :: m in r <==> m in movies && Flagged(m, genre)
    ensures |r| <= |movies|
  {
    if genre == "" then movies else Filter(movies, (m: Row) => Flagged(m, genre))
  }

  /** The genre filter keeps the movies' order: it distributes over concatenation. */
  lemma FilteredKeepsOrder(a: seq<Row>, b: seq<Row>, genre: string)
    ensures Filtered(a + b, genre) == Filtered(a, genre) + Filtered(b, genre)
  {
    if genre != "" {
      FilterConcat(a, b, (m: Row) => Flagged(m, genre));
    }
  }

  // ---------------------------------------------------------------------------
  // Title lookups

  /** `titleList.some(title => title.toLowerCase() === movie.title.toLowerCase())`. */
  predicate Listed(titleList: seq<string>, m: Row) {
    exists t :: t in titleList && SameIgnoringCase(t, TitleOf(m))
  }

  /** `filterTitle`: the movies whose title equals, ignoring case, some title of the list. */
  function FilterTitle(titleList: seq<string>, movies: seq<Row>): (r: seq<Row>)
    requires AllTitled(movies)
    ensures forall m :: m in r <==> m in movies && exists t :: t in titleList && SameIgnoringCase(t, TitleOf(m))
    ensures |r| <= |movies|
  {
    Filter(movies, (m: Row) => Listed(titleList, m))
  }

  /** `filterTitle` keeps the movies' order: it distributes over concatenation. */
  lemma FilterTitleKeepsOrder(titleList: seq<string>, a: seq<Row>, b: seq<Row>)
    requires AllTitled(a) && AllTitled(b)
    ensures AllTitled(a + b)
    ensures FilterTitle(titleList, a + b) == FilterTitle(titleList, a) + FilterTitle(titleList, b)
  {
    FilterConcat(a, b, (m: Row) => Listed(titleList, m));
  }

  /** Position `i` holds the first movie whose title equals `title` ignoring case. */
  predicate FirstMatchAt(movies: seq<Row>, title: string, i: int) {
    0 <= i < |movies| && SameIgnoringCase(TitleOf(movies[i]), title) &&
    forall j :: 0 <= j < i ==> !SameIgnoringCase(TitleOf(movies[j]), title)
  }

  /** `movies.findIndex(movie => movie.title.toLowerCase() === title.toLowerCase())`. */
  function FindIndex(movies: seq<Row>, title: string): (i: int)
    ensures -1 <= i < |movies|
    ensures i == -1 <==> forall m :: m in movies ==> !SameIgnoringCase(TitleOf(m), title)
    ensures i >= 0 ==> FirstMatchAt(movies, title, i)
  {
    if movies == [] then -1
    else if SameIgnoringCase(TitleOf(movies[0]), title) then 0
    else
      var k := FindIndex(movies[1..], title);
      assert forall m :: m in movies <==> m == movies[0] || m in movies[1..] by {
        assert movies == [movies[0]] + movies[1..];
      }
      if k == -1 then -1
      else
        assert movies[1..][k] == movies[k + 1];
        k + 1
  }

  function NotFound(title: string): string {
    "Movie with title \"" + title + "\" not found"
  }

  /** `findMovie`: the first movie whose title equals `title` ignoring case; throws when none does. */
  function FindMovie(movies: seq<Row>, title: string): (r: Result<Row>)
    requires AllTitled(movies)
    ensures r.Failure? <==> forall m :: m in movies ==> !SameIgnoringCase(TitleOf(m), title)
    ensures r.Failure? ==> r.error == NotFound(title)
    ensures r.Success? ==> exists i :: FirstMatchAt(movies, title, i) && movies[i] == r.value
  {
    var i := FindIndex(movies, title);
    if i == -1 then Failure(NotFound(title)) else Success(movies[i])
  }

  /** A found movie together with its flagged genres. */
  datatype Found = Found(obj: Row, genres: seq<string>)

  /** `findTitle`: the first case-insensitive title match with its flagged genres; throws when none. */
  function FindTitle(movies: seq<Row>, genres: seq<string>, title: string): (r: Result<Found>)
    requires AllTitled(movies)
    ensures r.Failure? <==> forall m :: m in movies ==> !SameIgnoringCase(TitleOf(m), title)
    ensures r.Failure? ==> r.error == NotFound(title)
    ensures r.Success? ==> exists i :: FirstMatchAt(movies, title, i) && movies[i] == r.value.obj
    ensures r.Success? ==> forall g :: g in r.value.genres <==> g in genres && Flagged(r.value.obj, g)
    ensures r.Success? ==> r.value.genres == ActiveGenres(r.value.obj, genres)
  {
    match FindMovie(movies, title)
    case Failure(e) => Failure(e)
    case Success(m) => Success(Found(m, ActiveGenres(m, genres)))
  }

  /** Hero title of the Movies page. */
  const MoviesHeroTitle := "100 Meters"
  /** Hero title of the front-end Home page. */
  const HomeHeroTitle := "All American"

  /** `recentlyAdded`: nothing while the list is empty, otherwise `findTitle(heroTitle)`, which
      throws when the list holds no such title. */
  function RecentlyAdded(movies: seq<Row>, genres: seq<string>, heroTitle: string): (r: Result<Option<Found>>)
    requires AllTitled(movies)
    ensures r == Success(None) <==> |movies| == 0
    ensures r.Failure? <==> |movies| > 0 && forall m :: m in movies ==> !SameIgnoringCase(TitleOf(m), heroTitle)
    ensures r.Success? && r.value.Some? ==>
      r.value.value.obj in movies && SameIgnoringCase(TitleOf(r.value.value.obj), heroTitle)
    ensures r.Success? && r.value.Some? ==>
      exists i :: FirstMatchAt(movies, heroTitle, i) && movies[i] == r.value.value.obj
    ensures r.Success? && r.value.Some? ==>
      forall g :: g in r.value.value.genres <==> g in genres && Flagged(r.value.value.obj, g)
    ensures r.Success? && r.value.Some? ==> r.value.value.genres == ActiveGenres(r.value.value.obj, genres)
  {
    if |movies| == 0 then Success(None)
    else
      match FindTitle(movies, genres, heroTitle)
      case Failure(e) => Failure(e)
      case Success(f) => Success(Some(f))
  }

  // ---------------------------------------------------------------------------
  // Landing-page batches

  /** `items1`, `items2`, `items3`: the first 150 movies cut into consecutive runs of at most 50. */
  function Batches(movies: seq<Row>): (r: (seq<Row>, seq<Row>, seq<Row>))
    ensures r.0 + r.1 + r.2 == movies[..Min(150, |movies|)]
    ensures |r.0| == Min(50, |movies|)
    ensures |r.1| == Min(50, |movies| - |r.0|)
    ensures |r.2| == Min(50, |movies| - |r.0| - |r.1|)
  {
    var batched := Slice(movies, 0, 150);
    var r := (Slice(batched, 0, 50), Slice(batched, 50, 100), Slice(batched, 100, 150));
    assert r.0 + r.1 + r.2 == movies[..Min(150, |movies|)];
    r
  }
}
