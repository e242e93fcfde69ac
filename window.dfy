/** The windowed "load more" list the catalog pages share: a visible prefix of a
    source list, plus the index at which the next chunk starts. Each page keeps
    this pair as component state; here it is a value, and the page classes tie
    their fields to it. */
module Window {
  import opened Seqs

  datatype Win<T> = Win(visible: seq<T>, index: nat)

  /** The prefix an index stands for: the first `index` items, or all of them. */
  function Prefix<T>(src: seq<T>, index: nat): (p: seq<T>)
    ensures |p| == Min(index, |src|)
    ensures p <= src
  {
    src[..Min(index, |src|)]
  }

  /** The window invariant: what is visible is exactly the prefix up to the index. */
  ghost predicate Shows<T>(src: seq<T>, w: Win<T>) {
    w.visible == Prefix(src, w.index)
  }

  /** Resetting to the first chunk: the first `chunk` items are visible, the next load starts at `chunk`. */
  function Reset<T>(src: seq<T>, chunk: nat): (w: Win<T>)
    ensures Shows(src, w)
    ensures w.index == chunk
    ensures |w.visible| == Min(chunk, |src|)
  {
    Win(src[..Min(chunk, |src|)], chunk)
  }

  /** `loadMore` with the exhaustion guard: an empty next chunk leaves the window as it is,
      otherwise the chunk is appended and the index advances by `chunk`. */
  function LoadMore<T>(src: seq<T>, chunk: nat, w: Win<T>): (w': Win<T>)
    ensures w.index >= |src| || chunk == 0 ==> w' == w
    ensures w.index < |src| && chunk > 0 ==>
              w'.index == w.index + chunk &&
              w'.visible == w.visible + src[w.index..Min(w.index + chunk, |src|)]
    ensures Shows(src, w) ==> Shows(src, w')
  {
    var next := Slice(src, w.index, w.index + chunk);
    if |next| == 0 then w
    else
      assert next == src[w.index..Min(w.index + chunk, |src|)];
      Win(w.visible + next, w.index + chunk)
  }

  /** `loadMore` without the guard: the (possibly empty) next chunk is appended and the
      index always advances by `chunk`. */
  function LoadMoreUnguarded<T>(src: seq<T>, chunk: nat, w: Win<T>): (w': Win<T>)
    ensures w'.index == w.index + chunk
    ensures w.index >= |src| ==> w'.visible == w.visible
    ensures w.index < |src| ==> w'.visible == w.visible + src[w.index..Min(w.index + chunk, |src|)]
    ensures Shows(src, w) ==> Shows(src, w')
  {
    var next := Slice(src, w.index, w.index + chunk);
    assert w.index < |src| ==> next == src[w.index..Min(w.index + chunk, |src|)];
    Win(w.visible + next, w.index + chunk)
  }

  /** The window after a reset followed by `k` guarded loads. */
  function AfterLoads<T>(src: seq<T>, chunk: nat, k: nat): Win<T> {
    if k == 0 then Reset(src, chunk) else LoadMore(src, chunk, AfterLoads(src, chunk, k - 1))
  }

  /** The window after a reset followed by `k` unguarded loads. */
  function AfterUnguardedLoads<T>(src: seq<T>, chunk: nat, k: nat): Win<T> {
    if k == 0 then Reset(src, chunk) else LoadMoreUnguarded(src, chunk, AfterUnguardedLoads(src, chunk, k - 1))
  }

  /** After a reset and `k` guarded loads exactly the first `min(n, chunk * (k + 1))` items are
      visible: no item is skipped or repeated, whether or not a load found the list exhausted. */
  lemma {:induction false} AfterLoadsWindow<T>(src: seq<T>, chunk: nat, k: nat)
    requires chunk > 0
    ensures Shows(src, AfterLoads(src, chunk, k))
    ensures Min(AfterLoads(src, chunk, k).index, |src|) == Min(chunk * (k + 1), |src|)
    ensures AfterLoads(src, chunk, k).visible == src[..Min(chunk * (k + 1), |src|)]
  {
    var n := |src|;
    if k > 0 {
      var prev := AfterLoads(src, chunk, k - 1);
      var a := chunk * k;
      AfterLoadsWindow(src, chunk, k - 1);
      assert chunk * (k + 1) == a + chunk;
      assert Shows(src, prev) && Min(prev.index, n) == Min(a, n);
      var w := LoadMore(src, chunk, prev);
      assert AfterLoads(src, chunk, k) == w;
      if prev.index >= n {
        assert a >= n && w == prev;
      } else {
        assert prev.index == a && w.index == a + chunk;
      }
    }
  }

  /** Loading never shrinks the window: each window is a prefix of the next one. */
  lemma AfterLoadsGrow<T>(src: seq<T>, chunk: nat, k: nat)
    requires chunk > 0
    ensures AfterLoads(src, chunk, k).visible <= AfterLoads(src, chunk, k + 1).visible
    ensures |AfterLoads(src, chunk, k).visible| <= |AfterLoads(src, chunk, k + 1).visible|
  {
    AfterLoadsWindow(src, chunk, k);
    AfterLoadsWindow(src, chunk, k + 1);
    assert chunk * (k + 1) <= chunk * (k + 2);
  }

  /** After a reset and `k` unguarded loads the index is `chunk * (k + 1)`, even past the end,
      and exactly the first `min(n, chunk * (k + 1))` items are visible. */
  lemma {:induction false} AfterUnguardedLoadsWindow<T>(src: seq<T>, chunk: nat, k: nat)
    ensures AfterUnguardedLoads(src, chunk, k).index == chunk * (k + 1)
    ensures Shows(src, AfterUnguardedLoads(src, chunk, k))
    ensures AfterUnguardedLoads(src, chunk, k).visible == src[..Min(chunk * (k + 1), |src|)]
  {
    var w := AfterUnguardedLoads(src, chunk, k);
    if k > 0 {
      var prev := AfterUnguardedLoads(src, chunk, k - 1);
      AfterUnguardedLoadsWindow(src, chunk, k - 1);
      assert w == LoadMoreUnguarded(src, chunk, prev);
      assert chunk * (k + 1) == chunk * k + chunk;
      assert w.index == chunk * (k + 1);
    }
    assert w.visible == Prefix(src, w.index);
  }

  /** A window never shows an item twice when the source list holds none twice. */
  lemma ShownDistinct<T>(src: seq<T>, w: Win<T>)
    requires Shows(src, w) && Distinct(src)
    ensures Distinct(w.visible)
  {
    assert forall i :: 0 <= i < |w.visible| ==> w.visible[i] == src[i];
  }
}
