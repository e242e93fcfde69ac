/** The title grid of the simpler Home page: the trimmed, sorted list of all titles
    and a window over it grown 100 at a time by an unguarded `loadMore`. */
module TitleGridHome {
  import opened Wrappers
  import opened Text
  import opened Seqs
  import opened TitleRecord
  import opened Window

  const ChunkSize: nat := 100

  /** `row.title?.trim()`. */
  function TrimmedTitle(r: Row): Option<string> {
    match Get(r, "title")
    case None => None
    case Some(t) => Some(Trim(t))
  }

  /** `.filter(Boolean)` on the mapped titles: the defined, non-empty ones. */
  function Truthy(xs: seq<Option<string>>): (ys: seq<string>)
    ensures forall y :: y in ys <==> y != "" && Some(y) in xs
    ensures forall y :: multiset(ys)[y] == if y == "" then 0 else multiset(xs)[Some(y)]
  {
    if xs == [] then []
    else
      assert xs == [xs[0]] + xs[1..];
      (if xs[0].Some? && xs[0].value != "" then [xs[0].value] else []) + Truthy(xs[1..])
  }

  /** `rows.map(row => row.title?.trim())`. */
  function MapTitles(rows: seq<Row>): (xs: seq<Option<string>>)
    ensures |xs| == |rows|
    ensures forall i :: 0 <= i < |rows| ==> xs[i] == TrimmedTitle(rows[i])
  {
    if rows == [] then [] else [TrimmedTitle(rows[0])] + MapTitles(rows[1..])
  }

  lemma MapTitlesHas(rows: seq<Row>, t: string)
    ensures Some(t) in MapTitles(rows) <==> exists r :: r in rows && TrimmedTitle(r) == Some(t)
  {
    var xs := MapTitles(rows);
    if exists r :: r in rows && TrimmedTitle(r) == Some(t) {
      var r :| r in rows && TrimmedTitle(r) == Some(t);
      var i :| 0 <= i < |rows| && rows[i] == r;
      assert xs[i] == Some(t);
    }
  }

  /** A title that `trim` produced is left as it is by `trim`. */
  lemma TrimmedTitleIsTrimmed(r: Row, t: string)
    requires TrimmedTitle(r) == Some(t)
    ensures Trim(t) == t
  {
    TrimIdempotent(Get(r, "title").value);
  }

  /** The titles the page lists: every row's trimmed title, empty ones dropped, sorted. Unlike the
      other pages the stored titles are the trimmed ones. */
  function ExtractTitles(rows: seq<Row>): (titles: seq<string>)
    ensures SortedBy(titles, (t: string) => t)
    ensures forall t :: t in titles <==> t != "" && exists r :: r in rows && TrimmedTitle(r) == Some(t)
    ensures forall t :: t in titles ==> Trim(t) == t
    ensures multiset(titles) == multiset(Truthy(MapTitles(rows)))
  {
    var extracted := Truthy(MapTitles(rows));
    var titles := SortBy(extracted, (t: string) => t);
    assert forall t :: t in titles <==> t in multiset(extracted);
    forall t ensures t in titles <==> t != "" && exists r :: r in rows && TrimmedTitle(r) == Some(t) {
      MapTitlesHas(rows, t);
    }
    forall t | t in titles ensures Trim(t) == t {
      MapTitlesHas(rows, t);
      var r :| r in rows && TrimmedTitle(r) == Some(t);
      TrimmedTitleIsTrimmed(r, t);
    }
    titles
  }

  class Home {
    var allTitles: seq<string>
    var visibleTitles: seq<string>
    var index: nat

    /** The visible titles are exactly the list up to the index, which may lie past its end. */
    ghost predicate Valid()
      reads this
    {
      Shows(allTitles, Win(visibleTitles, index))
    }

    constructor ()
      ensures allTitles == [] && visibleTitles == [] && index == 0
      ensures Valid()
    {
      allTitles := [];
      visibleTitles := [];
      index := 0;
    }

    /** The parser's `complete` callback: store the titles and show the first 100. */
    method LoadComplete(rows: seq<Row>)
      modifies this
      ensures allTitles == ExtractTitles(rows)
      ensures Win(visibleTitles, index) == Reset(allTitles, ChunkSize)
      ensures Valid()
    {
      var sortedTitles := ExtractTitles(rows);
      allTitles := sortedTitles;
      visibleTitles := Slice(sortedTitles, 0, ChunkSize);
      index := ChunkSize;
      assert visibleTitles == allTitles[..Min(ChunkSize, |allTitles|)];
    }

    /** `loadMore` without a guard: appends the next (possibly empty) 100 titles and always
        advances the index by 100; past the end nothing visible changes. */
    method LoadMore()
      modifies this`visibleTitles, this`index
      ensures Win(visibleTitles, index) == LoadMoreUnguarded(allTitles, ChunkSize, old(Win(visibleTitles, index)))
      ensures index == old(index) + ChunkSize
      ensures old(index) >= |allTitles| ==> visibleTitles == old(visibleTitles)
      ensures old(Valid()) ==> Valid()
    {
      var nextChunk := Slice(allTitles, index, index + ChunkSize);
      visibleTitles := visibleTitles + nextChunk;
      index := index + ChunkSize;
    }
  }
}
