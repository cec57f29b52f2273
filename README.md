# Cinetech movie list and collections, modelled in Dafny

Cinetech is a React application that browses a movie catalogue. This project
models its two core pieces.

- **The movie list component** (`src/components/moviesList.jsx`). It holds
  the fetched records, a sort setting (key and direction), a text query, a
  genre choice, a status choice and the current page. Its memoised pipeline
  works in five steps:
  1. It copies the records.
  2. It filters them by text, which is the lower-cased title (falling back
     to the name) containing the lower-cased query.
  3. It filters them by genre, which is the genre id list holding the chosen
     id, or the `genre` text equal to the drop-down value.
  4. It filters them by status, which is the record's id being in the
     favorites, watched or watch-later id list.
  5. It sorts them with `Array.sort`, then cuts out the ten records of the
     current page.

  The catalogue service returns 20 records per request. So list page `p`
  fetches source page `ceil(p*10/20)` and shows the half of it that starts
  at `((p-1)*10) % 20`.
- **The application shell** (`src/App.jsx`). It holds the dark-mode flag and
  three collections of whole records: favorites, watched and watch later.
  They are loaded from browser storage on start and written back on every
  change. A toggle removes every entry with the record's id if there is one,
  and appends the record otherwise. The three collection sections each pass
  one collection of whole records to their movie list as `manualMovies`
  (`src/App.jsx:148`, `:166`, `:180`); the three catalogue lists pass none and
  fetch their records. Every list's status filter and card markers read only
  the id lists (`src/App.jsx:149-151`).

Module layout:

| file | module | models |
|---|---|---|
| `wrappers.dfy` | `Wrappers` | the `Option` and `Result` types |
| `records.dfy` | `Records` | the record type, title text, lower-casing, substring search, and filtering (`Keep`). It also proves that filtering preserves order (subsequence) and keeps exact counts (multiset). |
| `filters.dfy` | `Filters` | the three filter stages |
| `sorting.dfy` | `Sorting` | the comparator and a stable sort used as its specification. The in-place insertion sort on an array is proved equal to that stable sort. |
| `paging.dfy` | `Paging` | source page, window start, slice, and page navigation |
| `movielist.dfy` | `MovieListView` | the sort-button logic, the composed pipeline `View`, and the component state as class `MovieList` with one method per handler |
| `collections.dfy` | `Collections` | membership, toggle and id lists |
| `appstore.dfy` | `AppStore` | theme and collection persistence over a storage map, and the shell state as class `App` |

How JavaScript behaviour is represented:

- A JavaScript-falsy empty string in a record is `None`.
- Storage holds `Text` values or `RecordList` values. A `RecordList` stands
  for the JSON text of a list of records; JSON itself is not modelled.
- Network answers come in as method parameters.

The sort is worth a note. `Array.sort` is stable, and the model sorts by
insertion. `Sorting.StableSortIsUnique` proves that any sorted permutation
that keeps tied records in input order equals the insertion sort's result.
So this choice of algorithm fixes no behaviour of its own.

Two behaviours of the code are easy to overlook, and the model keeps both:

- **Malformed storage.** Non-empty stored text that is not valid JSON makes
  `JSON.parse` throw (`src/App.jsx:22`, `:28`, `:34`). Valid JSON that is not
  an array parses, but then makes the id maps throw (`:101-103`). The model's
  `AppStore.LoadCollection` returns `Err` for any stored text other than the
  empty text, and `App.Open` fails with it.
- **Toggling twice.** For a record that was absent, two toggles restore the
  list. For a record that was present, the second toggle appends the record
  at the end (`src/App.jsx:81`), so its position is lost and any duplicate
  entries are gone for good. `Collections.ToggleTwice` states both cases.

## Model

| member | source | states |
|---|---|---|
| Records.StringOr | src/components/moviesList.jsx:102 | `o \|\| fallback`: the value when it is a non-empty string, otherwise the fallback |
| Records.TitleText | src/components/moviesList.jsx:102 | `title \|\| name \|\| ''`: the non-empty title, else the non-empty name, else the empty string |
| Records.LowerCase | src/components/moviesList.jsx:102 | `toLowerCase` keeps the length and lower-cases each character by `LowerChar` |
| Records.Contains | src/components/moviesList.jsx:102 | `includes`: the empty needle is always found, a found needle is no longer than the text, and a text contains itself |
| Records.Keep | src/components/moviesList.jsx:101-103 | `filter` never lengthens the list; the lemmas below give its members, order and counts |
| Records.LowerChar | src/components/moviesList.jsx:102 | ASCII `toLowerCase`: upper-case letters move down by 32 and every other character is unchanged |
| Records.ContainsIffOccurs | src/components/moviesList.jsx:102 | `includes` holds exactly when the needle occurs at some index of the text |
| Records.KeepMembers | src/components/moviesList.jsx:101-103 | `filter` keeps exactly the records that satisfy the predicate |
| Records.KeepConcat | src/components/moviesList.jsx:101-103 | filtering a concatenation gives the concatenation of the filtered parts, so the kept records stay in order |
| Records.KeepIsSubsequence | src/components/moviesList.jsx:101-103 | a filter's output is a subsequence of its input |
| Records.KeepCount | src/components/moviesList.jsx:101-103 | a kept record occurs as often as in the input, and a dropped one not at all |
| Records.KeepAll | src/components/moviesList.jsx:101-103 | a filter that every record passes returns its input |
| Records.KeepKeep | src/components/moviesList.jsx:100-109 | two filters in a row equal one filter by the conjunction of their predicates |
| Records.SubsequenceTransitive | src/components/moviesList.jsx:97-124 | a subsequence of a subsequence is a subsequence, so the chained stages preserve order |
| Filters.Decimal | src/components/moviesList.jsx:226-230 | the drop-down value of a genre option is a non-empty string of decimal digits that spells the id, and whose only text with a leading zero is "0" |
| Filters.DecimalInjective | src/components/moviesList.jsx:226-230 | two genre options have the same value exactly when they have the same id |
| Filters.TextStage | src/components/moviesList.jsx:100-104 | the empty query is the identity; otherwise the output has at most as many records and holds exactly the input records whose lower-cased title contains the lower-cased query |
| Filters.GenreStage | src/components/moviesList.jsx:107-109 | 'all' is the identity; otherwise exactly the input records whose genre ids hold the id, or whose non-empty `genre` equals the option's text |
| Filters.StatusStage | src/components/moviesList.jsx:112-124 | 'all' is the identity; otherwise exactly the input records whose id is in the chosen id list |
| Filters.TextStageIsExactFilter | src/components/moviesList.jsx:100-104 | the text stage equals `Keep` by its predicate, is a subsequence of its input, and counts each admitted record as often as the input |
| Filters.GenreStageIsExactFilter | src/components/moviesList.jsx:107-109 | the same three facts for the genre stage |
| Filters.StatusStageIsExactFilter | src/components/moviesList.jsx:112-124 | the same three facts for the status stage |
| Sorting.LocaleCompare | src/components/moviesList.jsx:136-138 | the string comparison returns -1, 0 or 1 |
| Sorting.LocaleCompareAntisymmetric | src/components/moviesList.jsx:136-138 | swapping the strings negates the comparison |
| Sorting.LocaleCompareZeroIffEqual | src/components/moviesList.jsx:136-138 | only equal strings compare as 0 |
| Sorting.LocaleCompareTransitive | src/components/moviesList.jsx:136-138 | "sorts no later than" is transitive |
| Sorting.SortKeyFallbacks | src/components/moviesList.jsx:139-148 | the keys `ScoreOr0` (`x \|\| 0`: the score when present, else 0) and `DateKey` (the release date when present, else the first air date, else 0) |
| Sorting.Compare | src/components/moviesList.jsx:128-156 | the comparator's sign is -1, 0 or 1 |
| Sorting.CompareFollowsKey | src/components/moviesList.jsx:128-156 | a goes first exactly when its key is smaller (ascending) or larger (descending), or when its lower-cased title compares before b's (ascending) or after it (descending); numeric keys tie exactly when equal |
| Sorting.CompareIsConsistent | src/components/moviesList.jsx:128-156 | for every key and direction the comparator is antisymmetric and its "no later than" is transitive, as `Array.sort` requires |
| Sorting.MissingValuesCountAsZero | src/components/moviesList.jsx:139-150 | a missing popularity, rating or date sorts exactly as a zero one |
| Sorting.SortedFollowsKey | src/components/moviesList.jsx:128-156 | in a sorted list every earlier record has a key no larger (ascending) or no smaller (descending) than a later one; for titles the same in the string order |
| Sorting.StableSort | src/components/moviesList.jsx:128 | `Array.sort` keeps the number of records; the lemmas below give the permutation, order, stability and uniqueness |
| Sorting.StableSortPermutes | src/components/moviesList.jsx:128 | the sorted records are a permutation of the input |
| Sorting.StableSortSorts | src/components/moviesList.jsx:128 | every pair of sorted records is in an order the comparator allows |
| Sorting.StableSortIsStable | src/components/moviesList.jsx:128 | records that tie keep their input order |
| Sorting.StableSortIsUnique | src/components/moviesList.jsx:128 | any sorted permutation that keeps ties in input order is the model's sort result |
| Sorting.AllTiesSortAsIs | src/components/moviesList.jsx:128-156 | when all records tie, for instance when none has the sorted field, sorting changes nothing |
| Sorting.InsertInPlace | src/components/moviesList.jsx:128 | inserting element i into the sorted prefix of the array gives `Insert` of that prefix and element, and the rest of the array is unchanged |
| Sorting.SortInPlace | src/components/moviesList.jsx:127-157 | the array after the in-place sort is `StableSort` of its old contents |
| Paging.SourcePage | src/components/moviesList.jsx:75 | the fetched source page r is the ceiling: `(r-1)*20 < p*10 <= r*20` |
| Paging.WindowStart | src/components/moviesList.jsx:160 | the window starts at 0 on odd pages and at 10 on even pages, and ends by 20 |
| Paging.Slice | src/components/moviesList.jsx:161 | JS `slice` with bounds cut down to the length: the result's length, and each element taken from position begin + i |
| Paging.Window | src/components/moviesList.jsx:160-161 | the page holds the records from the window start up to ten further or the end of the input, whichever comes first, element by element |
| Paging.PageAlignment | src/components/moviesList.jsx:75-160 | `(SourcePage(p)-1)*20 + WindowStart(p) == (p-1)*10` and `WindowStart(p)+10 <= 20` |
| Paging.PageShowsItsRecords | src/components/moviesList.jsx:75-161 | with no filtering or reordering, page p shows catalogue records (p-1)*10 up to p*10 |
| Paging.ShortSourceShownWhole | src/components/moviesList.jsx:160-161 | on an odd page, at most ten records are shown whole |
| Paging.PagesCoverSource | src/components/moviesList.jsx:160-161 | an odd page and the next show a source page of at most 20 records whole and in order |
| Paging.PreviousPage | src/components/moviesList.jsx:308 | one page back, or page 1 when already on page 1 |
| Paging.NextPage | src/components/moviesList.jsx:323 | one page forward, and PreviousPage undoes it |
| Paging.PagesShareSource | src/components/moviesList.jsx:75-160 | an odd page and the next page fetch the same source page and show its two halves |
| MovieListView.NextSortConfig | src/components/moviesList.jsx:165-174 | a new key sorts descending; the current key goes from descending to ascending, and from ascending back to the default popularity/descending |
| MovieListView.SortClicksCycle | src/components/moviesList.jsx:165-174 | clicks on one key cycle with period 3, or 2 for popularity, and end on the default when another key was set |
| MovieListView.Filtered | src/components/moviesList.jsx:97-124 | the three stages together keep exactly the input records that pass all three predicates, and never more records |
| MovieListView.FilteredIsOneFilter | src/components/moviesList.jsx:97-124 | the chained stages are a subsequence of all records and count each admitted record as often as the input |
| MovieListView.View | src/components/moviesList.jsx:96-162 | as many records as the page's window holds of the admitted ones (at most 10), all drawn from the input and passing every filter; with no filter set, the page of the sorted input |
| MovieListView.PagesShowAllAdmitted | src/components/moviesList.jsx:96-162 | when at most 20 records are admitted, an odd page followed by the next page is all of them, sorted |
| MovieListView.ViewIsSortedPage | src/components/moviesList.jsx:96-162 | the page is sorted by the current setting; on an odd page with at most ten admitted records it is all of them, sorted |
| MovieListView.Marks | src/components/moviesList.jsx:293-295 | each card flag is set iff the record's id is in the matching id list |
| MovieListView.StatusFilterShowsMarkedCards | src/components/moviesList.jsx:293-295 | under a status filter every record on screen carries that status's flag |
| MovieListView.MovieList.constructor | src/components/moviesList.jsx:51-58 | the initial state: no records, loading only without manual records, no error, popularity/descending, empty query, 'all' filters, page 1 |
| MovieListView.MovieList.BeginLoad | src/components/moviesList.jsx:64-76 | manual records are shown and loading ends; otherwise the error clears, loading starts and source page `SourcePage(currentPage)` is requested |
| MovieListView.MovieList.ReceiveManualMovies | src/components/moviesList.jsx:64-93 | a new `manualMovies` prop re-runs the loading effect: the new records are shown (or, without any, the current source page is requested), and sort, filters and page stay |
| MovieListView.MovieList.ReceiveResponse | src/components/moviesList.jsx:80-92 | an error status records 'Erreur réseau'; a success stores `results`, or `[]` when there are none; loading ends |
| MovieListView.MovieList.ReceiveFailure | src/components/moviesList.jsx:87-92 | a failed request records its message and loading ends |
| MovieListView.MovieList.SortMovies | src/components/moviesList.jsx:165-174 | the sort setting becomes `NextSortConfig`, and nothing else changes |
| MovieListView.MovieList.SetSearchQuery | src/components/moviesList.jsx:213 | only the query changes |
| MovieListView.MovieList.SetSelectedGenre | src/components/moviesList.jsx:225 | only the genre choice changes |
| MovieListView.MovieList.SetSelectedStatus | src/components/moviesList.jsx:239 | only the status choice changes |
| MovieListView.MovieList.ResetFilters | src/components/moviesList.jsx:280 | the three filters go back to their no-filter values; sort and page stay |
| MovieListView.MovieList.GoToPreviousPage | src/components/moviesList.jsx:308 | the page becomes `PreviousPage` of the old page |
| MovieListView.MovieList.GoToNextPage | src/components/moviesList.jsx:323 | the page becomes `NextPage` of the old page |
| MovieListView.MovieList.FilteredAndSortedMovies | src/components/moviesList.jsx:96-162 | filtering, then sorting a fresh array in place, then slicing gives `View` of the state; the stored records are not modified |
| Collections.HasId | src/App.jsx:80 | `some(m => m.id === id)` holds iff some entry has the id |
| Collections.WithoutId | src/App.jsx:81 | the filtered list has no entry with the id, keeps every other entry as often as the list holds it, and is a subsequence of the list |
| Collections.Toggle | src/App.jsx:78-83 | the toggled record's id flips membership, and every other id keeps its membership |
| Collections.ToggleOutcomes | src/App.jsx:80-81 | an absent id appends the record at the end; a present id removes all its entries, shortening the list and keeping the rest in order |
| Collections.ToggleTwice | src/App.jsx:78-83 | two toggles restore the set of ids; they restore the list itself when the id was absent, and otherwise leave the list without the id plus the record at the end |
| Collections.Ids | src/App.jsx:101-103 | the id list has one id per entry, in order |
| Collections.IdsMembership | src/App.jsx:101-103 | an id is in the id list iff some entry has it |
| Collections.ToggleKeepsUnique | src/App.jsx:78-83 | a toggle keeps the entries' ids pairwise distinct |
| AppStore.GetItem | src/App.jsx:15 | `getItem` returns the stored value for a written key and null otherwise |
| AppStore.EncodeTheme | src/App.jsx:56 | the stored text is 'dark' exactly in dark mode |
| AppStore.DecodeTheme | src/App.jsx:14-17 | dark exactly when the stored value is the text 'dark' |
| AppStore.ThemeRoundTrip | src/App.jsx:14-56 | the saved theme loads back as the same mode |
| AppStore.LoadCollection | src/App.jsx:20-35 | a missing key or empty text gives `Ok([])`, a stored list gives that list, and any other text fails to parse |
| AppStore.SaveCollection | src/App.jsx:42-52 | a saved collection loads back as the same list |
| AppStore.LoadSettings | src/App.jsx:14-35 | start-up succeeds iff all three collections load; the theme is then decoded from its key and each collection is what `LoadCollection` read; empty storage gives light mode and three empty collections |
| AppStore.SaveSettings | src/App.jsx:42-56 | the four writes keep every other key unchanged |
| AppStore.SettingsRoundTrip | src/App.jsx:14-56 | whatever the storage held, saving the state and loading it back gives the same state |
| AppStore.StatusFilterFollowsCollection | src/App.jsx:101-151 | with a collection's id list, the status filter keeps a record iff the collection has its id, and the card flags say the same |
| AppStore.App.Open | src/App.jsx:14-56 | start-up fails iff a collection fails to load; on success the state is what was loaded, the storage holds the four writes, and storage and state agree |
| AppStore.App.ToggleFavorite | src/App.jsx:78-83 | favorites become `Toggle` of the old list and only that key is rewritten; storage stays in agreement with the state |
| AppStore.App.ToggleWatched | src/App.jsx:86-91 | the same for watched |
| AppStore.App.ToggleWatchLater | src/App.jsx:94-99 | the same for watch later |
| AppStore.App.ToggleTheme | src/App.jsx:56-120 | the mode flips and only the theme key is rewritten; storage stays in agreement with the state |
| AppStore.App.IdLists | src/App.jsx:101-103 | each id list is `Ids` of its collection: one id per entry, in the entries' order, holding exactly the collection's ids |

## Left out

- Network access (`fetch`, the API key, the URL) is not modelled. A request
  is an output of `BeginLoad`, and the answer is an input to
  `ReceiveResponse` or `ReceiveFailure`.
- Stale answers are not modelled: the model assumes each request's answer
  arrives before the page changes again. Out-of-order asynchronous answers
  are concurrency.
- JSON encoding and decoding, and string-only storage, are not modelled. A
  stored list of records stands for its JSON text. Every other non-empty
  text is `Err`. The code throws for two kinds of it: text that is not valid
  JSON (at `JSON.parse`), and valid JSON that is not an array (at the id
  maps). The model does not tell these two apart.
- AppStore.LoadCollection: a stored JSON array of non-record values (such as
  `[1]` or `[{}]`) loads without error in the code, but is `Err` in the
  model, because stored values are either text or a list of records.
- Sorting.LocaleCompare: a locale-aware collation is not modelled. It
  compares character codes in order, which differs from the browser's
  locale rules.
- Records.LowerChar: only ASCII letters are lower-cased; Unicode case
  mapping is not modelled.
- The floating-point and date-parsing details of the sort are not modelled.
  Scores are exact reals with no NaN. Dates are already parsed into
  millisecond timestamps, so an unparsable date is not modelled.
- The `sortConfig.key !== null` guard is always true and is not modelled.
  The same goes for the comparator's default switch branch: every reachable
  key is one of the four modelled ones.
- The trending-movie effect and its random pick (`Math.random`) are not
  modelled. Neither are the featured-movie, section and card components.
- Rendering is not modelled: icons, CSS classes, the document's `dark`
  class, the empty-state message, the favorites counter, and the visibility
  and disabled state of the pagination buttons.
- React's re-render scheduling and effect dependency tracking are not
  modelled. Each `App` handler's method applies its state change together
  with the storage write that the effect performs after it. In `MovieList`,
  `ReceiveManualMovies` runs the loading effect itself. `GoToNextPage` and
  `GoToPreviousPage` only change the page: the effect that `currentPage`
  triggers (`src/components/moviesList.jsx:93`) is a separate `BeginLoad`
  call that the caller makes next.
