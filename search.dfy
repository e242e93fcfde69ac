/** The command palette's search bar: a fuzzy search over a fixed index of
    entries, keyboard navigation through the results, and selection, which
    navigates to the entry's path and, for compound "Kind~~name" entries, leaves
    data for the target page in session storage. */
module Search {
  import opened Wrappers
  import opened Text
  import Overlay

  /** One entry of the search index. `data`, an arbitrary object in the index, is kept as its
      JSON text. */
  datatype SearchItem = SearchItem(title: string, path: string, keywords: Option<seq<string>>, data: Option<string>)

  /** A `~~` starts at position `i` of `s`. */
  predicate TildesAt(s: string, i: int) {
    0 <= i < |s| - 1 && s[i] == '~' && s[i + 1] == '~'
  }

  /** `s.includes('~~')`. */
  predicate HasDoubleTilde(s: string) {
    exists i :: 0 <= i < |s| && TildesAt(s, i)
  }

  /** `s.indexOf('~~')`: the first position where `~~` starts, or -1. */
  function IndexOfTildes(s: string): (i: int)
    ensures i == -1 || 0 <= i < |s| - 1
    ensures i == -1 <==> !HasDoubleTilde(s)
    ensures i >= 0 ==> TildesAt(s, i)
  {
    if |s| < 2 then
      assert forall j :: 0 <= j < |s| ==> !TildesAt(s, j);
      -1
    else if s[0] == '~' && s[1] == '~' then
      assert TildesAt(s, 0);
      0
    else
      var k := IndexOfTildes(s[1..]);
      assert HasDoubleTilde(s) ==> HasDoubleTilde(s[1..]) by {
        if HasDoubleTilde(s) {
          var j :| 0 <= j < |s| && TildesAt(s, j);
          assert j > 0;
          assert s[1..][j - 1] == s[j] && s[1..][j] == s[j + 1];
          assert TildesAt(s[1..], j - 1);
        }
      }
      assert HasDoubleTilde(s[1..]) ==> HasDoubleTilde(s) by {
        if HasDoubleTilde(s[1..]) {
          var j :| 0 <= j < |s| - 1 && TildesAt(s[1..], j);
          assert s[1..][j] == s[j + 1] && s[1..][j + 1] == s[j + 2];
          assert TildesAt(s, j + 1);
        }
      }
      if k == -1 then -1 else k + 1
  }

  /** `s.replace(/~~/g, ' ')`: scanning left to right, every `~~` becomes one space. */
  function ReplaceTildes(s: string): (r: string)
    ensures |r| <= |s|
  {
    if s == [] then []
    else if |s| >= 2 && s[0] == '~' && s[1] == '~' then [' '] + ReplaceTildes(s[2..])
    else [s[0]] + ReplaceTildes(s[1..])
  }

  /** No `~~` is left after the rewrite. */
  lemma {:induction false} ReplaceRemovesTildes(s: string)
    ensures !HasDoubleTilde(ReplaceTildes(s))
  {
    if s != [] {
      if |s| >= 2 && s[0] == '~' && s[1] == '~' {
        ReplaceRemovesTildes(s[2..]);
        NoTildesAfter(' ', ReplaceTildes(s[2..]));
      } else {
        var rest := ReplaceTildes(s[1..]);
        ReplaceRemovesTildes(s[1..]);
        assert rest != [] && rest[0] == '~' ==> s[1] == '~';
        NoTildesAfter(s[0], rest);
      }
    }
  }

  lemma NoTildesAfter(c: char, rest: string)
    requires !HasDoubleTilde(rest)
    requires c == '~' && rest != [] ==> rest[0] != '~'
    ensures !HasDoubleTilde([c] + rest)
  {
    var s := [c] + rest;
    forall j | 0 <= j < |s| - 1 ensures !TildesAt(s, j) {
      if j > 0 {
        assert !TildesAt(rest, j - 1);
      }
    }
  }

  /** `s.split('~~')`. */
  function SplitTildes(s: string): (parts: seq<string>)
    ensures |parts| >= 1
    ensures |parts| >= 2 <==> HasDoubleTilde(s)
    decreases |s|
  {
    var i := IndexOfTildes(s);
    if i == -1 then [s] else [s[..i]] + SplitTildes(s[i + 2..])
  }

  /** `parts.join(sep)`. */
  function Join(parts: seq<string>, sep: string): string {
    if |parts| == 0 then ""
    else if |parts| == 1 then parts[0]
    else parts[0] + sep + Join(parts[1..], sep)
  }

  lemma JoinCons(head: string, rest: seq<string>, sep: string)
    requires |rest| >= 1
    ensures Join([head] + rest, sep) == head + sep + Join(rest, sep)
  {
    assert ([head] + rest)[1..] == rest;
  }

  /** A string cut around a `~~` found at `i`. */
  lemma CutAtTildes(s: string, i: int)
    requires TildesAt(s, i)
    ensures s == s[..i] + "~~" + s[i + 2..]
  {
    assert s[i..i + 2] == "~~";
    assert s == s[..i] + s[i..i + 2] + s[i + 2..];
  }

  /** Splitting at `~~` and joining with `~~` gives back the title. */
  lemma {:induction false} SplitJoin(s: string)
    ensures Join(SplitTildes(s), "~~") == s
    decreases |s|
  {
    var i := IndexOfTildes(s);
    if i >= 0 {
      var head, tail := s[..i], s[i + 2..];
      var rest := SplitTildes(tail);
      SplitJoin(tail);
      assert SplitTildes(s) == [head] + rest;
      JoinCons(head, rest, "~~");
      CutAtTildes(s, i);
    }
  }

  /** Without a `~~` the rewrite changes nothing. */
  lemma {:induction false} ReplaceNoTildes(s: string)
    requires !HasDoubleTilde(s)
    ensures ReplaceTildes(s) == s
  {
    if s != [] {
      assert !TildesAt(s, 0);
      assert !HasDoubleTilde(s[1..]) by {
        forall j | 0 <= j < |s[1..]| ensures !TildesAt(s[1..], j) {
          assert !TildesAt(s, j + 1);
        }
      }
      ReplaceNoTildes(s[1..]);
      assert s == [s[0]] + s[1..];
    }
  }

  /** The rewrite replaces the first `~~` by a space and carries on after it. */
  lemma {:induction false} ReplaceFirst(s: string, i: int)
    requires i == IndexOfTildes(s) && i >= 0
    ensures ReplaceTildes(s) == s[..i] + " " + ReplaceTildes(s[i + 2..])
  {
    if i == 0 {
      assert s[..i] == [];
    } else {
      var t := s[1..];
      var k := i - 1;
      assert k == IndexOfTildes(t);
      var rest := ReplaceTildes(t[k + 2..]);
      ReplaceFirst(t, k);
      assert ReplaceTildes(s) == [s[0]] + ReplaceTildes(t);
      assert s[..i] == [s[0]] + t[..k];
      assert s[i + 2..] == t[k + 2..];
    }
  }

  /** The rewrite agrees with `title.split('~~').join(' ')`. */
  lemma {:induction false} ReplaceIsSplitJoin(s: string)
    ensures ReplaceTildes(s) == Join(SplitTildes(s), " ")
    decreases |s|
  {
    var i := IndexOfTildes(s);
    if i == -1 {
      ReplaceNoTildes(s);
    } else {
      var head, tail := s[..i], s[i + 2..];
      var rest := SplitTildes(tail);
      ReplaceFirst(s, i);
      ReplaceIsSplitJoin(tail);
      assert SplitTildes(s) == [head] + rest;
      JoinCons(head, rest, " ");
    }
  }

  /** A compound title: the part before the first `~~` and the part after it, up to any next one. */
  lemma {:induction false} SplitCompound(kind: string, name: string)
    requires forall k :: 0 <= k < |kind| ==> kind[k] != '~'
    requires !HasDoubleTilde(name)
    ensures SplitTildes(kind + "~~" + name) == [kind, name]
  {
    var s := kind + "~~" + name;
    TildesAfterPlain(kind, name);
    assert s[..|kind|] == kind;
    assert s[|kind| + 2..] == name;
  }

  lemma {:induction false} TildesAfterPlain(kind: string, name: string)
    requires forall k :: 0 <= k < |kind| ==> kind[k] != '~'
    ensures IndexOfTildes(kind + "~~" + name) == |kind|
  {
    if kind != [] {
      var s := kind + "~~" + name;
      assert s[1..] == kind[1..] + "~~" + name;
      TildesAfterPlain(kind[1..], name);
    }
  }

  /** The search result as shown: `{ ...item, title: item.title.replace(/~~/g, ' ') }`. */
  function CleanTitle(item: SearchItem): SearchItem {
    item.(title := ReplaceTildes(item.title))
  }

  predicate Clean(items: seq<SearchItem>) {
    forall k :: 0 <= k < |items| ==> !HasDoubleTilde(items[k].title)
  }

  /** The matches, in the matcher's order, with their titles rewritten and everything else kept. */
  function CleanResults(matches: seq<SearchItem>): (r: seq<SearchItem>)
    ensures |r| == |matches|
    ensures forall k :: 0 <= k < |r| ==>
      r[k] == matches[k].(title := ReplaceTildes(matches[k].title))
    ensures Clean(r)
  {
    var r := seq(|matches|, k requires 0 <= k < |matches| => CleanTitle(matches[k]));
    assert Clean(r) by {
      forall k | 0 <= k < |r| ensures !HasDoubleTilde(r[k].title) {
        ReplaceRemovesTildes(matches[k].title);
      }
    }
    r
  }

  /** `%` on JavaScript numbers: the remainder takes the sign of the dividend. */
  function JsRem(a: int, b: int): (r: int)
    requires b > 0
    ensures -b < r < b
    ensures a >= 0 ==> 0 <= r
  {
    if a >= 0 then a % b else -((-a) % b)
  }

  /** The highlighted result after ArrowDown: `(prev + 1) % n`. */
  function ArrowDownIndex(prev: int, n: nat): (r: int)
    requires n > 0
    ensures prev >= -1 ==> 0 <= r < n
  {
    JsRem(prev + 1, n)
  }

  /** The highlighted result after ArrowUp: `prev <= 0 ? n - 1 : prev - 1`. */
  function ArrowUpIndex(prev: int, n: nat): (r: int)
    ensures 0 < n && prev <= n ==> 0 <= r < n
  {
    if prev <= 0 then n - 1 else prev - 1
  }

  /** From a valid highlight ArrowDown moves one place down, wrapping from the last result
      to the first. */
  lemma ArrowDownStep(prev: int, n: nat)
    requires 0 <= prev < n
    ensures ArrowDownIndex(prev, n) == if prev == n - 1 then 0 else prev + 1
  {
    if prev + 1 < n {
      assert (prev + 1) % n == prev + 1;
    } else {
      assert prev + 1 == n;
      assert n % n == 0;
    }
  }

  /** From a valid highlight both arrows keep it valid, wrapping at either end, and each undoes
      the other. */
  lemma ArrowsCycle(prev: int, n: nat)
    requires 0 <= prev < n
    ensures 0 <= ArrowDownIndex(prev, n) < n && 0 <= ArrowUpIndex(prev, n) < n
    ensures ArrowDownIndex(prev, n) == if prev == n - 1 then 0 else prev + 1
    ensures ArrowUpIndex(ArrowDownIndex(prev, n), n) == prev
    ensures ArrowDownIndex(ArrowUpIndex(prev, n), n) == prev
  {
    ArrowDownStep(prev, n);
    var up := ArrowUpIndex(prev, n);
    assert 0 <= up < n;
    ArrowDownStep(up, n);
  }

  /** What selecting a result leaves in session storage: a "User~~name" entry with data stores
      the data under `individualUser`, a "License Plate~~name" entry stores the name under
      `plate`; nothing else is written. */
  function ClickSession(item: SearchItem, session: map<string, string>): (r: map<string, string>)
    ensures r.Keys <= session.Keys + {"individualUser", "plate"}
    ensures forall k :: k in session && k != "individualUser" && k != "plate" ==> k in r && r[k] == session[k]
    ensures !HasDoubleTilde(item.title) ==> r == session
    ensures HasDoubleTilde(item.title) && SplitTildes(item.title)[0] == "User" && item.data.Some? ==>
      r == session["individualUser" := item.data.value]
    ensures HasDoubleTilde(item.title) && SplitTildes(item.title)[0] == "License Plate" ==>
      r == session["plate" := SplitTildes(item.title)[1]]
    ensures (HasDoubleTilde(item.title) && SplitTildes(item.title)[0] != "License Plate" &&
             !(SplitTildes(item.title)[0] == "User" && item.data.Some?)) ==> r == session
  {
    if HasDoubleTilde(item.title) then
      var parts := SplitTildes(item.title);
      var kind := parts[0];
      var name := parts[1];
      var afterUser := if kind == "User" && item.data.Some? then session["individualUser" := item.data.value] else session;
      if kind == "License Plate" then afterUser["plate" := name] else afterUser
    else session
  }

  /** Selecting an entry whose title has no `~~` (every entry the search shows) writes nothing. */
  lemma ClickOnCleanedResultWritesNothing(item: SearchItem, session: map<string, string>)
    requires !HasDoubleTilde(item.title)
    ensures ClickSession(item, session) == session
  {
  }

  /** Selecting an uncleaned "User~~name" entry with data stores the data, and nothing else. */
  lemma UserEntryStoresData(name: string, path: string, keywords: Option<seq<string>>, data: string, session: map<string, string>)
    requires !HasDoubleTilde(name)
    ensures ClickSession(SearchItem("User~~" + name, path, keywords, Some(data)), session)
         == session["individualUser" := data]
  {
    SplitCompound("User", name);
    assert "User~~" + name == "User" + "~~" + name;
    assert HasDoubleTilde("User~~" + name) by {
      assert TildesAt("User~~" + name, 4);
    }
  }

  /** Selecting an uncleaned "License Plate~~name" entry stores the name as the plate. */
  lemma PlateEntryStoresName(name: string, path: string, keywords: Option<seq<string>>, data: Option<string>, session: map<string, string>)
    requires !HasDoubleTilde(name)
    ensures ClickSession(SearchItem("License Plate~~" + name, path, keywords, data), session)
         == session["plate" := name]
  {
    SplitCompound("License Plate", name);
    assert "License Plate~~" + name == "License Plate" + "~~" + name;
    assert HasDoubleTilde("License Plate~~" + name) by {
      assert TildesAt("License Plate~~" + name, 13);
    }
  }

  class SearchBar {
    /** The application shell whose `setSearchActive` the bar was given. */
    const app: Overlay.App
    /** `fuse.search(query)` mapped to the matched items: the fuzzy matcher over the fixed index,
        left uninterpreted. */
    const fuse: string -> seq<SearchItem>
    /** The matcher instance has been built (the mount effect has run). */
    var fuseReady: bool
    var searchResults: seq<SearchItem>
    var selectedIndex: int
    var session: map<string, string>
    /** The paths handed to `navigate`, in order. */
    var navigations: seq<string>

    /** While results are shown, the highlight points at one of them. */
    ghost predicate Valid()
      reads this
    {
      |searchResults| > 0 ==> 0 <= selectedIndex < |searchResults|
    }

    constructor (app: Overlay.App, fuse: string -> seq<SearchItem>, session: map<string, string>)
      ensures this.app == app && this.fuse == fuse && this.session == session
      ensures !fuseReady && searchResults == [] && selectedIndex == 0 && navigations == []
      ensures Valid()
    {
      this.app := app;
      this.fuse := fuse;
      this.session := session;
      fuseReady := false;
      searchResults := [];
      selectedIndex := 0;
      navigations := [];
    }

    /** The mount effect that builds the matcher. */
    method BuildIndex()
      modifies this`fuseReady
      ensures fuseReady
    {
      fuseReady := true;
    }

    /** `handleSearch`, on every change of the input: a blank query, or one typed before the
        matcher exists, clears the results; otherwise the matches are shown with `~~` rewritten
        to a space. The highlight goes back to the first result. */
    method HandleSearch(query: string)
      modifies this`searchResults, this`selectedIndex
      ensures IsBlank(query) || !fuseReady ==> searchResults == []
      ensures !IsBlank(query) && fuseReady ==> searchResults == CleanResults(fuse(query))
      ensures selectedIndex == 0
      ensures Valid() && Clean(searchResults)
    {
      if Trim(query) == "" || !fuseReady {
        searchResults := [];
        selectedIndex := 0;
        return;
      }
      var matches := fuse(query);
      searchResults := CleanResults(matches);
      selectedIndex := 0;
    }

    /** `handleKeyDown` on the input. Without results every key is ignored. Escape closes the
        palette and clears the results; the arrows move the highlight, wrapping around; Enter
        navigates to the highlighted result and closes the palette. */
    method KeyDown(key: string)
      requires Valid()
      modifies this`searchResults, this`selectedIndex, this`navigations, app`searchActive
      ensures old(searchResults) == [] || (key != "Escape" && key != "ArrowDown" && key != "ArrowUp" && key != "Enter") ==>
        searchResults == old(searchResults) && selectedIndex == old(selectedIndex) &&
        navigations == old(navigations) && app.searchActive == old(app.searchActive)
      ensures old(searchResults) != [] && (key == "Escape" || key == "Enter") ==>
        !app.searchActive && searchResults == [] && selectedIndex == 0
      ensures old(searchResults) != [] && key == "Enter" ==>
        navigations == old(navigations) + [old(searchResults)[old(selectedIndex)].path]
      ensures old(searchResults) != [] && key != "Enter" ==> navigations == old(navigations)
      ensures old(searchResults) != [] && key == "ArrowDown" ==>
        searchResults == old(searchResults) && app.searchActive == old(app.searchActive) &&
        selectedIndex == ArrowDownIndex(old(selectedIndex), |old(searchResults)|)
      ensures old(searchResults) != [] && key == "ArrowUp" ==>
        searchResults == old(searchResults) && app.searchActive == old(app.searchActive) &&
        selectedIndex == ArrowUpIndex(old(selectedIndex), |old(searchResults)|)
      ensures Valid()
      ensures old(Clean(searchResults)) ==> Clean(searchResults)
    {
      if |searchResults| == 0 {
        return;
      }
      if key == "Escape" {
        app.SetSearchActive(false);
        searchResults := [];
        selectedIndex := 0;
      } else if key == "ArrowDown" {
        ArrowsCycle(selectedIndex, |searchResults|);
        selectedIndex := ArrowDownIndex(selectedIndex, |searchResults|);
      } else if key == "ArrowUp" {
        ArrowsCycle(selectedIndex, |searchResults|);
        selectedIndex := ArrowUpIndex(selectedIndex, |searchResults|);
      } else if key == "Enter" && selectedIndex >= 0 {
        var selectedItem := searchResults[selectedIndex];
        navigations := navigations + [selectedItem.path];
        app.SetSearchActive(false);
        searchResults := [];
        selectedIndex := 0;
      }
    }

    /** `handleSearchItemClick`: a compound entry first leaves its data in session storage; then
        the bar navigates to the entry's path, closes the palette and clears the results. */
    method ItemClick(item: SearchItem)
      modifies this`searchResults, this`selectedIndex, this`navigations, this`session, app`searchActive
      ensures session == ClickSession(item, old(session))
      ensures navigations == old(navigations) + [item.path]
      ensures !app.searchActive && searchResults == [] && selectedIndex == -1
      ensures Valid()
      ensures Clean(old(searchResults)) && item in old(searchResults) ==> session == old(session)
    {
      if HasDoubleTilde(item.title) {
        var parts := SplitTildes(item.title);
        var kind, name := parts[0], parts[1];
        if kind == "User" && item.data.Some? {
          session := session["individualUser" := item.data.value];
        }
        if kind == "License Plate" {
          session := session["plate" := name];
        }
      }
      navigations := navigations + [item.path];
      app.SetSearchActive(false);
      searchResults := [];
      selectedIndex := -1;
    }

    /** `handleSearch` as evidently intended: the matches are shown with their titles as they are
        in the index, so that a selected compound entry still carries its kind, and the rewrite
        to a space is left to the display. */
    method HandleSearchKeepingKinds(query: string)
      modifies this`searchResults, this`selectedIndex
      ensures IsBlank(query) || !fuseReady ==> searchResults == []
      ensures !IsBlank(query) && fuseReady ==> searchResults == fuse(query)
      ensures selectedIndex == 0
      ensures Valid()
    {
      if Trim(query) == "" || !fuseReady {
        searchResults := [];
        selectedIndex := 0;
        return;
      }
      searchResults := fuse(query);
      selectedIndex := 0;
    }
  }
}
