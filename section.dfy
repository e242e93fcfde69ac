/** `Section`, the horizontal row of titles on the Home and Movies pages: a window
    over its `movies` prop, filled with the first 20 once the list is non-empty
    and grown 20 at a time by `loadMore`. */
module MovieSection {
  import opened Seqs
  import opened TitleRecord
  import opened Window

  const ChunkSize: nat := 20

  class Section {
    var movies: seq<Row>
    var visibleMovies: seq<Row>
    var scrollIndex: nat

    /** The visible movies are exactly the list up to the scroll index. */
    ghost predicate Valid()
      reads this
    {
      Shows(movies, Win(visibleMovies, scrollIndex))
    }

    /** The state of the first render, before any effect has run. */
    constructor (movies: seq<Row>)
      ensures this.movies == movies && visibleMovies == [] && scrollIndex == ChunkSize
      ensures |movies| == 0 ==> Valid()
    {
      this.movies := movies;
      visibleMovies := [];
      scrollIndex := ChunkSize;
    }

    /** The initial-load effect: only a non-empty list resets the window to its first 20 movies. */
    method InitialLoad()
      modifies this`visibleMovies, this`scrollIndex
      ensures |movies| > 0 ==> Win(visibleMovies, scrollIndex) == Reset(movies, ChunkSize)
      ensures |movies| == 0 ==> visibleMovies == old(visibleMovies) && scrollIndex == old(scrollIndex)
      ensures |movies| > 0 || old(Valid()) ==> Valid()
    {
      if |movies| > 0 {
        visibleMovies := Slice(movies, 0, ChunkSize);
        scrollIndex := ChunkSize;
        assert visibleMovies == movies[..Min(ChunkSize, |movies|)];
      }
    }

    /** A new `movies` prop and the effect that depends on it. An empty list leaves the old
        window in place. */
    method ReceiveMovies(m: seq<Row>)
      modifies this
      ensures movies == m
      ensures |m| > 0 ==> Win(visibleMovies, scrollIndex) == Reset(m, ChunkSize) && Valid()
      ensures |m| == 0 ==> visibleMovies == old(visibleMovies) && scrollIndex == old(scrollIndex)
    {
      movies := m;
      InitialLoad();
    }

    /** `loadMore`: a no-op once the list is exhausted, otherwise the next chunk is appended and
        the index advances by 20. */
    method LoadMore()
      modifies this`visibleMovies, this`scrollIndex
      ensures Win(visibleMovies, scrollIndex) == Window.LoadMore(movies, ChunkSize, old(Win(visibleMovies, scrollIndex)))
      ensures old(scrollIndex) >= |movies| ==> visibleMovies == old(visibleMovies) && scrollIndex == old(scrollIndex)
      ensures old(Valid()) ==> Valid()
    {
      var nextChunk := Slice(movies, scrollIndex, scrollIndex + ChunkSize);
      if |nextChunk| == 0 {
        return;
      }
      visibleMovies := visibleMovies + nextChunk;
      scrollIndex := scrollIndex + ChunkSize;
    }
  }
}
