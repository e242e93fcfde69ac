# intex-2025 front end: catalog pages, search palette and title cards

This project models, in Dafny, the client-side logic of the intex-2025 streaming
catalogue front end:

- **Loading the catalogue.** Each page takes the rows the CSV parser hands over
  and keeps the ones with a non-blank title. The TV page also keeps only rows
  whose `type` is "TV Show". The kept rows are sorted by title (`Catalog`).
  A row is an ordered list of column/value pairs, so `Object.keys`, `row[key]`
  and a missing column (`undefined`) are all modelled (`TitleRecord`).
- **Derived views.** These are the genre list, the genre filter, the
  case-insensitive title lookups that throw when nothing matches, the hero
  banner and the landing-page batches (`Catalog`).
- **The "load more" window.** Every list page grows it chunk by chunk: 40 on the
  TV page, 20 in a `Section` row, 100 on the simple title grid. `Window` holds it
  as a value. `TvShowsPage.TvShows`, `MovieSection.Section` and
  `TitleGridHome.Home` are classes whose fields are the components' state, and
  each method's contract ties the new state to the value model. The `Section`
  components in `frontend/src/pages/Home.tsx` and `src/pages/Movies.tsx` have the
  same state, effects and `loadMore` (only their markup differs), so they are one
  class here.
- **The application shell's search overlay** (`Overlay.App`): the global Ctrl/Cmd+K
  and Escape listener, clicks on the backdrop and around the search bar, and the
  highlight effect.
- **The search bar** (`Search.SearchBar`): searching with a fuzzy matcher,
  rewriting `~~` in result titles, keyboard navigation through the results, and
  selecting an entry, which navigates and may write session storage.
- **The title cards** (`TitleCard`): the poster address, the two failure
  behaviours of the poster image, and the row of rating stars computed with
  `parseInt`.
- **The JavaScript built-ins these rely on** (`Text`, `Seqs`): `trim`,
  `toLowerCase`, `localeCompare` as an order, `parseInt`, `slice`, `filter`,
  `indexOf`-based de-duplication, and the stable `sort`.

In three places the code does not do what its own text says it means to do. The model
follows the code and states the intended behaviour beside it (see "Findings"):

- The ternary at `src/App.tsx:31` is written as a toggle, but the listener only ever
  opens the palette.
- The result list at `src/components/SearchBar.tsx:159-172` splits titles at `~~` to show
  kind and name, but every result reaching it has had `~~` rewritten away.
- The `// Prevent looping` comment at `frontend/src/components/Title.tsx:17` means the
  fallback to be substituted once, but the handler stays attached.

## Model

| member | source | states |
|---|---|---|
| Text.TrimStart | frontend/src/pages/Home.tsx:27 | the result is a suffix of the input, the removed prefix is all white space, and the result does not start with white space |
| Text.TrimEnd | frontend/src/pages/Home.tsx:27 | the result is a prefix of the input, the removed suffix is all white space, and the result does not end with white space |
| Text.Trim | frontend/src/pages/Home.tsx:27 | `trim()` is empty exactly when the title is blank; a non-empty result starts and ends with a non-space |
| Text.TrimStartBlank | frontend/src/pages/Home.tsx:27 | stripping leading white space leaves nothing exactly when the string is blank |
| Text.TrimEndBlank | frontend/src/pages/Home.tsx:27 | stripping trailing white space leaves nothing exactly when the string is blank |
| Text.TrimIsSlice | src/pages/Home.tsx:22 | `trim()` is a contiguous slice of its input, with only white space on either side |
| Text.TrimIdempotent | src/pages/Home.tsx:22 | trimming a trimmed title changes nothing |
| Text.Lower | frontend/src/pages/Home.tsx:107-108 | `toLowerCase` keeps the length and maps every character through the case fold |
| Text.LowerIdempotent | frontend/src/pages/Home.tsx:117 | lower-casing twice equals lower-casing once |
| Text.StrLeqTotal | frontend/src/pages/TVShows.tsx:43 | the `localeCompare` order relates any two strings one way or the other |
| Text.StrLeqTrans | frontend/src/pages/TVShows.tsx:43 | the `localeCompare` order is transitive |
| Text.StrLeqAntisym | frontend/src/pages/TVShows.tsx:43 | two strings ordered both ways are equal |
| Text.DigitRun | frontend/src/components/Title.tsx:6 | the longest run of radix digits at the front of the input, and no longer |
| Text.ParseMagnitude | frontend/src/components/Title.tsx:6 | reading the text after the sign gives no number (NaN) exactly when no digit of the radix follows the optional `0x` prefix |
| Text.ReadSigned | frontend/src/components/Title.tsx:6 | after the white space: NaN exactly when the magnitude is NaN; the value is non-negative without a minus sign and non-positive after one |
| Text.ParseInt | frontend/src/components/Title.tsx:6 | `parseInt` gives NaN exactly when no digit follows the leading white space, sign and prefix; without a minus sign the value is non-negative |
| Text.Decimal | frontend/src/components/Title.tsx:6 | the decimal numeral of a number is a non-empty run of digits without a superfluous leading zero |
| Text.DecimalValue | frontend/src/components/Title.tsx:6 | the digits of a number's decimal numeral read back as that number |
| Text.MagnitudeOfDecimal | frontend/src/components/Title.tsx:6 | the unsigned reader reads a decimal numeral back as its number |
| Text.ParseIntUnsigned | frontend/src/components/Title.tsx:6 | a string starting with a digit is parsed with no sign or white space skipped |
| Text.ParseIntDecimal | frontend/src/components/Title.tsx:6 | `parseInt` of a decimal numeral is that number |
| Seqs.Slice | src/pages/Home.tsx:55 | `slice(from, to)` has `min(to, n) - from` elements (none if negative), taken in order from `from` |
| Seqs.Filter | frontend/src/pages/TVShows.tsx:48 | `filter` keeps exactly the elements satisfying the predicate and is no longer than its input |
| Seqs.FilterConcat | frontend/src/pages/TVShows.tsx:48 | `filter` keeps order: filtering a concatenation concatenates the filtered parts |
| Seqs.FilterAll | frontend/src/pages/TVShows.tsx:48 | a filter every element passes changes nothing |
| Seqs.FilterCount | frontend/src/pages/TVShows.tsx:25 | every kept element occurs as often as in the input; every dropped element occurs zero times |
| Seqs.FilterSubsequence | frontend/src/pages/Home.tsx:119 | `filter` only leaves elements out: what it keeps is a subsequence of its input, in the input's order |
| Seqs.IndexOf | frontend/src/pages/TVShows.tsx:42 | `indexOf` is -1 exactly when the element is absent; otherwise it is the element's first position |
| Seqs.KeepFirstFrom | frontend/src/pages/TVShows.tsx:42 | from position `i` on, the elements kept are exactly those whose first occurrence is at or after `i`, and none is kept twice |
| Seqs.KeepFirst | frontend/src/pages/TVShows.tsx:42 | the `indexOf` de-duplication keeps every element of the input exactly once |
| Seqs.PermutationMembers | frontend/src/pages/TVShows.tsx:43 | a sorted permutation holds the same elements as its input |
| Seqs.DistinctPermutation | frontend/src/pages/TVShows.tsx:42-43 | sorting a duplicate-free list leaves it duplicate-free |
| Seqs.DistinctCount | frontend/src/pages/TVShows.tsx:42 | a duplicate-free list holds each element at most once as a multiset |
| Seqs.Insert | frontend/src/pages/TVShows.tsx:26 | inserting into a sorted list keeps it sorted and adds exactly that element |
| Seqs.SortBy | frontend/src/pages/TVShows.tsx:26 | `sort` with a `localeCompare` comparator returns a sorted permutation of its input |
| Seqs.InsertKeepsKeyOrder | frontend/src/pages/TVShows.tsx:26 | an inserted element goes in front of every element with the same key, leaving their order as it was |
| Seqs.SortByStable | frontend/src/pages/TVShows.tsx:26 | the sort is stable: the elements sharing any one key keep their input order, so of two same-titled rows the earlier one stays first |
| Seqs.SortedDistinctIncreasing | frontend/src/pages/TVShows.tsx:42-43 | a sorted, duplicate-free list of genres is strictly increasing |
| TitleRecord.GetIn | frontend/src/pages/Home.tsx:119 | a column is defined exactly when the row has a field of that name, and the value read is that field's value |
| TitleRecord.KeysIn | frontend/src/pages/Home.tsx:119 | the keys are the fields' names, one per field, in column order |
| TitleRecord.Keys | frontend/src/pages/Home.tsx:119 | `Object.keys(row)` lists exactly the columns the row defines |
| TitleRecord.HasTitle | frontend/src/pages/TVShows.tsx:25 | `row.title?.trim()` is truthy; `Catalog.LoadMovies` and `Catalog.LoadTvShows` state that exactly the rows satisfying it are kept, with multiplicity |
| TitleRecord.IsTvShow | frontend/src/pages/TVShows.tsx:25 | `row.type === 'TV Show'`; `Catalog.LoadTvShows` states that exactly the titled rows satisfying it are kept |
| TitleRecord.Flagged | frontend/src/pages/TVShows.tsx:48 | `movie[genre] === '1'`; `Catalog.Filtered` and `TitleRecord.ActiveGenres` state that exactly the rows or keys satisfying it are kept |
| TitleRecord.ActiveGenres | frontend/src/pages/Home.tsx:119 | a row's active genres are exactly the genre-list entries it flags with '1'; each occurs as often as among the row's keys, and they keep the row's column order |
| Catalog.LoadMovies | frontend/src/pages/Home.tsx:27-28 | the stored movies are sorted by title and are exactly the rows with a non-blank title, with multiplicity |
| Catalog.LoadTvShows | frontend/src/pages/TVShows.tsx:25-26 | the stored shows are sorted by title and are exactly the titled "TV Show" rows, with multiplicity |
| Catalog.FlaggedGenres | frontend/src/pages/TVShows.tsx:36-41 | the reduce collects exactly the listed genres that some movie flags |
| Catalog.AllGenres | frontend/src/pages/TVShows.tsx:35-44 | `allGenres` holds exactly the listed genres some movie flags, each once, in strictly ascending order |
| Catalog.Filtered | frontend/src/pages/TVShows.tsx:47-49 | no selected genre keeps every movie; otherwise exactly the movies flagging the genre are kept |
| Catalog.FilteredKeepsOrder | frontend/src/pages/TVShows.tsx:47-49 | the genre filter keeps the movies' order |
| Catalog.FilterTitle | frontend/src/pages/Home.tsx:105-111 | `filterTitle` keeps exactly the movies whose title equals some listed title, ignoring case |
| Catalog.FilterTitleKeepsOrder | frontend/src/pages/Home.tsx:105-111 | `filterTitle` keeps the movies' order |
| Catalog.FindIndex | frontend/src/pages/Home.tsx:150 | `find` fails exactly when no title matches ignoring case; otherwise it picks the first match |
| Catalog.FindMovie | frontend/src/pages/Home.tsx:149-154 | `findMovie` throws "Movie with title … not found" exactly when no title matches; otherwise it returns the first match |
| Catalog.FindTitle | frontend/src/pages/Home.tsx:116-122 | `findTitle` throws exactly when no title matches; otherwise it returns the first match with exactly its flagged genres, in column order (`TitleRecord.ActiveGenres` of the match) |
| Catalog.RecentlyAdded | frontend/src/pages/Home.tsx:124-126 | the hero banner is empty exactly when no movie is loaded; with movies loaded it throws exactly when the hero title is missing, else it shows the first matching movie with exactly its flagged genres, in column order |
| Catalog.Batches | frontend/src/pages/Home.tsx:144-147 | the three batches of up to 50 movies, concatenated, are exactly the first 150 movies |
| Window.Prefix | frontend/src/pages/TVShows.tsx:54 | the prefix is the first `min(index, n)` items |
| Window.Reset | frontend/src/pages/TVShows.tsx:52-55 | the reset window shows the first chunk and the next load starts at one chunk |
| Window.LoadMore | frontend/src/pages/TVShows.tsx:78-83 | an empty next chunk changes nothing; otherwise the next chunk is appended and the index advances by one chunk; the window invariant is kept |
| Window.LoadMoreUnguarded | src/pages/Home.tsx:54-58 | the index always advances by one chunk; past the end nothing visible changes; the window invariant is kept |
| Window.AfterLoadsWindow | frontend/src/pages/TVShows.tsx:78-83 | after a reset and `k` guarded loads, exactly the first `min(n, chunk·(k+1))` items are visible, none skipped or repeated |
| Window.AfterLoadsGrow | frontend/src/pages/TVShows.tsx:78-83 | each load only extends what is visible |
| Window.AfterUnguardedLoadsWindow | src/pages/Home.tsx:54-58 | after `k` unguarded loads the index is `chunk·(k+1)`, even past the end, and exactly the first `min(n, chunk·(k+1))` titles are visible |
| Window.ShownDistinct | frontend/src/pages/TVShows.tsx:78-83 | the window shows no item twice when the list holds none twice |
| TvShowsPage.TvShows.Genres | frontend/src/pages/TVShows.tsx:35-44 | the genre buttons are exactly the listed genres some loaded show flags, each once, in strictly ascending order |
| TvShowsPage.TvShows.constructor | frontend/src/pages/TVShows.tsx:9-13 | first render: nothing loaded, "Action" selected, index at 40, loading |
| TvShowsPage.TvShows.LoadComplete | frontend/src/pages/TVShows.tsx:24-28 | the stored shows are the loaded TV shows, loading stops, and the window is reset to the first 40 of the filtered list |
| TvShowsPage.TvShows.SelectGenre | frontend/src/pages/TVShows.tsx:102 | a new genre resets the window over the new filtered list; the same genre changes nothing |
| TvShowsPage.TvShows.ResetWindow | frontend/src/pages/TVShows.tsx:52-55 | the window is the reset window of the filtered list, so the invariant holds |
| TvShowsPage.TvShows.LoadMore | frontend/src/pages/TVShows.tsx:78-83 | the new window is the guarded load of the old one; once exhausted nothing changes; the invariant is kept |
| MovieSection.Section.constructor | frontend/src/pages/Home.tsx:37-38 | first render: nothing visible, index at 20 |
| MovieSection.Section.InitialLoad | frontend/src/pages/Home.tsx:43-48 | a non-empty list resets the window to its first 20 movies; an empty one changes nothing |
| MovieSection.Section.ReceiveMovies | frontend/src/pages/Home.tsx:43-48 | a new non-empty list resets the window over it; an empty list keeps the old window |
| MovieSection.Section.LoadMore | frontend/src/pages/Home.tsx:72-77 | the new window is the guarded load of the old one; once exhausted nothing changes; the invariant is kept |
| TitleGridHome.TrimmedTitle | src/pages/Home.tsx:22 | `row.title?.trim()`; `TitleGridHome.TrimmedTitleIsTrimmed` states that what it yields is already trimmed and `TitleGridHome.MapTitlesHas` which titles it yields |
| TitleGridHome.Truthy | src/pages/Home.tsx:22 | `filter(Boolean)` keeps exactly the defined, non-empty titles, each as often as it occurs |
| TitleGridHome.MapTitles | src/pages/Home.tsx:22 | the map yields, per row, its trimmed title or `undefined` |
| TitleGridHome.MapTitlesHas | src/pages/Home.tsx:22 | a trimmed title occurs in the mapped list exactly when some row trims to it |
| TitleGridHome.TrimmedTitleIsTrimmed | src/pages/Home.tsx:22 | every stored title is already trimmed |
| TitleGridHome.ExtractTitles | src/pages/Home.tsx:20-23 | the title list is sorted, is a permutation of the non-empty trimmed titles of the rows (one copy per row), and each is trimmed |
| TitleGridHome.Home.constructor | src/pages/Home.tsx:7-9 | first render: nothing loaded or visible, index 0 |
| TitleGridHome.Home.LoadComplete | src/pages/Home.tsx:20-26 | the titles are stored and the window is reset to the first 100 |
| TitleGridHome.Home.LoadMore | src/pages/Home.tsx:54-58 | the new window is the unguarded load of the old one; the index always grows by 100; past the end nothing visible changes |
| Overlay.KeyDownNext | src/App.tsx:28-38 | Escape always closes, other keys change nothing, the shortcut sets the negation of the value the listener saw |
| Overlay.ShortcutOnlyOpens | src/App.tsx:27-44 | with the listener registered at mount (seeing `false`), the shortcut leaves the palette open whatever its state |
| Overlay.KeyDownIntended | src/App.tsx:29-37 | the intended listener toggles on the shortcut, closes on Escape and ignores other keys |
| Overlay.ShortcutToggles | src/App.tsx:29-32 | with the intended listener the shortcut changes the state, and pressing it twice restores it |
| Overlay.ClickNext | src/App.tsx:17-25 | after a click on the overlay the palette is open exactly when it was open and the click landed inside the search wrapper |
| Overlay.App.constructor | src/App.tsx:12-15 | the palette starts closed and unhighlighted, and the listener sees `false` |
| Overlay.App.KeyDown | src/App.tsx:28-38 | the new state is the listener's outcome for the value it closed over |
| Overlay.App.Click | src/App.tsx:17-25 | the new state is the click outcome |
| Overlay.App.SetSearchActive | src/App.tsx:12 | the palette's state becomes the given value |
| Overlay.App.HighlightEffect | src/App.tsx:46-58 | the highlight flag equals the open state |
| Search.IndexOfTildes | src/components/SearchBar.tsx:104 | -1 exactly when the title has no `~~`; otherwise the first position where `~~` starts |
| Search.ReplaceTildes | src/components/SearchBar.tsx:51 | `replace(/~~/g, ' ')` never lengthens a title; `Search.ReplaceRemovesTildes`, `Search.ReplaceFirst` and `Search.ReplaceIsSplitJoin` state what it yields |
| Search.ReplaceRemovesTildes | src/components/SearchBar.tsx:51 | a title with every `~~` replaced contains no `~~` |
| Search.NoTildesAfter | src/components/SearchBar.tsx:51 | a character that is not `~`, put before a string without `~~`, creates no `~~` |
| Search.SplitTildes | src/components/SearchBar.tsx:105 | `split('~~')` gives at least one part, and two or more exactly when the title has a `~~` |
| Search.Join | src/components/SearchBar.tsx:105 | `parts.join(sep)`; `Search.SplitJoin` states that it undoes `split('~~')` and `Search.ReplaceIsSplitJoin` that joining with a space is the rewrite |
| Search.JoinCons | src/components/SearchBar.tsx:105 | joining a list with a head is the head, the separator, and the join of the rest |
| Search.CutAtTildes | src/components/SearchBar.tsx:105 | a title is its part before the first `~~`, the `~~`, and its remainder |
| Search.SplitJoin | src/components/SearchBar.tsx:105 | joining the parts of `split('~~')` with `~~` gives the title back |
| Search.ReplaceNoTildes | src/components/SearchBar.tsx:51 | the rewrite leaves a title without `~~` unchanged |
| Search.ReplaceFirst | src/components/SearchBar.tsx:51 | the rewrite turns the first `~~` into a space and continues after it |
| Search.ReplaceIsSplitJoin | src/components/SearchBar.tsx:51 | `replace(/~~/g, ' ')` equals splitting at `~~` and joining with a space |
| Search.SplitCompound | src/components/SearchBar.tsx:105 | `split` of "Kind~~name" is `[Kind, name]` |
| Search.TildesAfterPlain | src/components/SearchBar.tsx:104 | the first `~~` of "Kind~~name" is right after the kind |
| Search.CleanResults | src/components/SearchBar.tsx:49-52 | the results are the matches in order, each with its title rewritten and every other field kept, and none contains `~~` |
| Search.JsRem | src/components/SearchBar.tsx:69 | the truncating `%` lies strictly between `-b` and `b`, and is non-negative for a non-negative dividend |
| Search.ArrowDownIndex | src/components/SearchBar.tsx:69 | `(prev + 1) % n` with JavaScript's `%` is a valid highlight from any highlight of -1 or more |
| Search.ArrowUpIndex | src/components/SearchBar.tsx:72-74 | `prev <= 0 ? n - 1 : prev - 1` is a valid highlight from any highlight up to `n` |
| Search.ArrowDownStep | src/components/SearchBar.tsx:69 | ArrowDown moves one place down and wraps from the last result to the first |
| Search.ArrowsCycle | src/components/SearchBar.tsx:67-74 | from a valid highlight both arrows keep it valid, wrap at the ends, and undo each other |
| Search.ClickSession | src/components/SearchBar.tsx:104-112 | a "User" entry with data stores the data under `individualUser`; a "License Plate" entry stores the name under `plate`; any other entry, with or without `~~`, leaves session storage unchanged |
| Search.ClickOnCleanedResultWritesNothing | src/components/SearchBar.tsx:104-112 | selecting an entry without `~~`, as every shown result is, leaves session storage unchanged |
| Search.UserEntryStoresData | src/components/SearchBar.tsx:106-108 | an unrewritten "User~~name" entry with data stores the data under `individualUser`, and nothing else |
| Search.PlateEntryStoresName | src/components/SearchBar.tsx:109-111 | an unrewritten "License Plate~~name" entry stores the name under `plate`, and nothing else |
| Search.SearchBar.constructor | src/components/SearchBar.tsx:27-29 | no results, highlight 0, no matcher yet |
| Search.SearchBar.BuildIndex | src/components/SearchBar.tsx:34-40 | after the mount effect the matcher exists |
| Search.SearchBar.HandleSearch | src/components/SearchBar.tsx:42-55 | a blank query, or no matcher yet, clears the results; otherwise the results are the rewritten matches; the highlight is 0 and valid; results never hold `~~` |
| Search.SearchBar.KeyDown | src/components/SearchBar.tsx:57-86 | without results nothing changes; Escape and Enter close and clear; Enter navigates to the highlighted path; the arrows move the highlight cyclically; the highlight stays valid |
| Search.SearchBar.ItemClick | src/components/SearchBar.tsx:103-119 | session storage gets the compound entry's writes, the entry's path is navigated to, the palette closes and results clear, and a shown result writes nothing |
| Search.SearchBar.HandleSearchKeepingKinds | src/components/SearchBar.tsx:42-55 | the intended search keeps the index titles, so compound entries keep their kind |
| TitleCard.StarCounts | frontend/src/components/Title.tsx:26-34 | no rating draws nothing; a parsed rating `v` draws `max(v, 0)` filled and `max(5 - v, 0)` empty stars, five in all exactly when `v` is in 0..5; NaN draws none; a count too large for an array throws |
| TitleCard.StarsOf | frontend/src/components/Title.tsx:6-7 | `numFullStar = parseInt(…)` and `numEmptyStar = 5 - numFullStar` as array lengths: NaN gives none, `v` gives `max(v, 0)` and `max(5 - v, 0)`, and a length too large throws |
| TitleCard.StarsForRating | frontend/src/components/Title.tsx:6-7 | a rating "k" with `k <= 5` draws `k` filled and `5 - k` empty stars |
| TitleCard.FallbackReloadsAsWritten | frontend/src/components/Title.tsx:15-19 | as written, after `k` failed loads `k + 1` loads have started and the fallback is shown: the loads never stop |
| TitleCard.ErrorAsWritten | frontend/src/components/Title.tsx:15-19 | the handler as written; `TitleCard.FallbackReloadsAsWritten` states that repeated failures start loads without bound |
| TitleCard.ErrorIntended | frontend/src/components/Title.tsx:15-19 | the one-shot handler the comment at line 17 asks for; `TitleCard.FallbackOnceIntended` states that it starts at most two loads |
| TitleCard.FallbackOnceIntended | frontend/src/components/Title.tsx:15-19 | a one-shot handler starts at most two loads and then stays on the fallback |
| TitleCard.FallbackPoster.constructor | frontend/src/components/Title.tsx:12 | the image starts loading the title's poster |
| TitleCard.FallbackPoster.ImageError | frontend/src/components/Title.tsx:15-19 | every failure switches to the fallback address and starts one more load |
| TitleCard.HidingPoster.constructor | src/components/Title.tsx:7 | the image is shown, with the title's poster address |
| TitleCard.HidingPoster.ImageSrc | src/components/Title.tsx:13-21 | an image is rendered exactly while the flag is set, from `cdnUrl + title + ".jpg"` |
| TitleCard.HidingPoster.ImageError | src/components/Title.tsx:18 | after a failure no image is rendered, for good |

## Left out

- Fetching `/movies_titles.csv` and parsing it with PapaParse are not modelled: the parsed rows are a parameter of the load methods. Network and parse failures leave the list empty, as in the source.
- The genre list imported from `utils/genres` is not part of this model; it is a parameter (`genres`).
- The `IntersectionObserver` wiring is not modelled: `loadMore` is invoked directly, as the observer would invoke it.
- The Fuse.js fuzzy matcher (scoring, threshold 0.3) is not modelled: it is an uninterpreted function from query to matched entries.
- `localeCompare` is modelled as code-point order: locale collation tables are out of scope. The sorting properties only need a total order.
- `toLowerCase` folds ASCII letters only: Unicode case mapping tables are out of scope.
- Strings are sequences of code points rather than UTF-16 code units.
- `parseInt` returns exact integers: the loss of floating-point precision beyond 2^53 is not modelled.
- Text.ParseIntDecimal: states the read-back for non-negative decimal numerals only; negative ratings are covered by `Text.ParseInt`'s contract, not by a read-back lemma.
- `data` of a search entry is kept as its JSON text; `JSON.stringify` and JavaScript truthiness of an arbitrary object are reduced to "present or absent".
- React batching and effect scheduling are treated as atomic steps: each state update and each effect is one method call.
- The `Section` row is declared inside its page and so is remounted on every page render; that remount is not modelled.
- Rendering, styling, the navigation bar, the footer, the landing-page markup, the unused `top10List` example and `console.log` are not modelled.
- `setTimeout`, focusing and blurring the input, `select()` and `scrollIntoView` are not modelled; `HighlightEffect` keeps only the highlight flag.
- Splitting a result title for display in the result list is not modelled.
- Navigation is recorded as the list of paths handed to `navigate`; routing itself is not modelled.

## Findings

| source | as written | input that shows it | evidently intended | confidence | as-written member | corrected member |
|---|---|---|---|---|---|---|
| src/App.tsx:27-44 | the keydown listener is registered once with an empty dependency list, so it always reads the initial `searchActive` (false) and Ctrl/Cmd+K always sets the palette open | Ctrl+K while the palette is open: it stays open | Ctrl/Cmd+K toggles the palette | high, not executed | Overlay.ShortcutOnlyOpens | Overlay.ShortcutToggles |
| src/components/SearchBar.tsx:49-52 | `handleSearch` rewrites every `~~` in result titles to a space, so the compound branch of `handleSearchItemClick` (lines 104-112) never sees a `~~` and never writes session storage | selecting the result for "User~~Jane Doe" with data: nothing is stored under `individualUser` | results keep their index titles so the compound entry's payload is stored | high, not executed | Search.ClickOnCleanedResultWritesNothing | Search.SearchBar.HandleSearchKeepingKinds |
| frontend/src/components/Title.tsx:15-19 | the handler clears the DOM `onerror` property, which React never set; React's `onError` stays attached, and each failed load of the fallback starts another load of it | a title whose poster and fallback both fail to load: loads without end | the fallback is substituted once | medium, not executed | TitleCard.FallbackReloadsAsWritten | TitleCard.FallbackOnceIntended |
