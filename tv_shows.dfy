/** The TV page: the loaded TV shows, the selected genre and the window of
    shows on screen, reset whenever the genre-filtered list changes and grown
    40 at a time by `loadMore`. */
module TvShowsPage {
  import opened Text
  import opened Seqs
  import opened TitleRecord
  import opened Catalog
  import opened Window

  const ChunkSize: nat := 40
  const InitialGenre := "Action"

  class TvShows {
    /** The genre names of the catalog, the list the page imports. */
    const genres: seq<string>
    var allMovies: seq<Row>
    var visibleMovies: seq<Row>
    var selectedGenre: string
    var scrollIndex: nat
    var loading: bool

    /** The memoised `filteredMovies`. */
    function FilteredMovies(): seq<Row>
      reads this
    {
      Filtered(allMovies, selectedGenre)
    }

    /** The memoised `allGenres`, the genre buttons. */
    function Genres(): (gs: seq<string>)
      reads this
      ensures forall g :: g in gs <==> g in genres && exists m :: m in allMovies && Flagged(m, g)
      ensures Distinct(gs)
      ensures forall i, j :: 0 <= i < j < |gs| ==> StrLeq(gs[i], gs[j]) && !StrLeq(gs[j], gs[i])
    {
      AllGenres(allMovies, genres)
    }

    /** The visible shows are exactly the filtered list up to the scroll index. */
    ghost predicate Valid()
      reads this
    {
      Shows(FilteredMovies(), Win(visibleMovies, scrollIndex))
    }

    /** The state of the first render: nothing loaded, "Action" selected, index at one chunk. */
    constructor (genres: seq<string>)
      ensures this.genres == genres
      ensures allMovies == [] && visibleMovies == [] && loading
      ensures selectedGenre == InitialGenre && scrollIndex == ChunkSize
      ensures Valid()
    {
      this.genres := genres;
      allMovies := [];
      visibleMovies := [];
      selectedGenre := InitialGenre;
      scrollIndex := ChunkSize;
      loading := true;
    }

    /** The parser's `complete` callback (keep the titled TV shows, sorted; stop loading), then the
        effect the new filtered list triggers: the window resets to the first chunk. */
    method LoadComplete(rows: seq<Row>)
      modifies this
      ensures selectedGenre == old(selectedGenre)
      ensures allMovies == LoadTvShows(rows) && !loading
      ensures Win(visibleMovies, scrollIndex) == Reset(FilteredMovies(), ChunkSize)
      ensures Valid()
    {
      allMovies := LoadTvShows(rows);
      loading := false;
      ResetWindow();
    }

    /** Clicking a genre button. A different genre yields a new filtered list and the effect
        resets the window, whatever it showed; the same genre leaves the state unchanged. */
    method SelectGenre(genre: string)
      modifies this
      ensures allMovies == old(allMovies) && loading == old(loading)
      ensures selectedGenre == genre
      ensures genre != old(selectedGenre) ==> Win(visibleMovies, scrollIndex) == Reset(FilteredMovies(), ChunkSize)
      ensures genre == old(selectedGenre) ==> visibleMovies == old(visibleMovies) && scrollIndex == old(scrollIndex)
      ensures old(Valid()) || genre != old(selectedGenre) ==> Valid()
    {
      if genre != selectedGenre {
        selectedGenre := genre;
        ResetWindow();
      }
    }

    /** The `[filteredMovies]` effect. */
    method ResetWindow()
      modifies this`visibleMovies, this`scrollIndex
      ensures Win(visibleMovies, scrollIndex) == Reset(FilteredMovies(), ChunkSize)
      ensures Valid()
    {
      var filtered := FilteredMovies();
      scrollIndex := ChunkSize;
      visibleMovies := Slice(filtered, 0, ChunkSize);
      assert visibleMovies == filtered[..Min(ChunkSize, |filtered|)];
    }

    /** `loadMore`: a no-op once the filtered list is exhausted, otherwise the next chunk is
        appended and the index advances by 40. */
    method LoadMore()
      modifies this`visibleMovies, this`scrollIndex
      ensures Win(visibleMovies, scrollIndex) == Window.LoadMore(FilteredMovies(), ChunkSize, old(Win(visibleMovies, scrollIndex)))
      ensures old(scrollIndex) >= |FilteredMovies()| ==> visibleMovies == old(visibleMovies) && scrollIndex == old(scrollIndex)
      ensures old(Valid()) ==> Valid()
    {
      var filtered := FilteredMovies();
      var nextChunk := Slice(filtered, scrollIndex, scrollIndex + ChunkSize);
      if |nextChunk| == 0 {
        return;
      }
      visibleMovies := visibleMovies + nextChunk;
      scrollIndex := scrollIndex + ChunkSize;
    }
  }
}
